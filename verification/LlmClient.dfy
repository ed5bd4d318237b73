/** The retrying language-model client (agents/llm/client.py, agents/llm/exceptions.py). */
module LlmClient {
  import opened Sequences
  import opened WhiteSpace

  /** The project's exceptions; anything else a provider raises is Unexpected. */
  datatype LlmError =
    | ConfigurationError | AuthenticationError | RequestValidationError | ResponseError
    | TimeoutError | ConnectionError | ProviderError
    | RateLimitError(retryAfter: Option<real>, quotaExhausted: bool)

  datatype Response = Response(content: Option<string>, finish: string, model: string, provider: string)

  /** What one call of the provider does. */
  datatype Reply = Returned(response: Response) | Raised(error: LlmError) | Unexpected

  datatype Outcome = Done(response: Response) | Failed(error: LlmError)

  datatype Config = Config(provider: string, model: string, maxRetries: nat)

  const MAX_RETRY_AFTER := 30.0

  /** `is_retryable` */
  predicate Retryable(e: LlmError) {
    match e
    case TimeoutError | ConnectionError | ProviderError => true
    case RateLimitError(after, quota) => !quota && (after.None? || after.value <= MAX_RETRY_AFTER)
    case _ => false
  }

  function OrElse(s: string, default: string): string { if s != "" then s else default }

  /** `_normalize_response` */
  function Normalized(cfg: Config, r: Response): Outcome {
    if r.content.None? || Blank(r.content.value) || r.finish == "error" then Failed(ResponseError)
    else Done(Response(r.content, r.finish, OrElse(r.model, cfg.model), OrElse(r.provider, cfg.provider)))
  }

  /** What one attempt amounts to: an unexpected exception becomes a provider error. */
  function OutcomeOf(cfg: Config, reply: Reply): Outcome {
    match reply
    case Returned(response) => Normalized(cfg, response)
    case Raised(error) => Failed(error)
    case Unexpected => Failed(ProviderError)
  }

  /** Whether an attempt is repeated: only errors raised as the project's own can be. */
  predicate Repeats(cfg: Config, reply: Reply) {
    reply.Raised? && Retryable(reply.error)
  }

  /** The attempts made: up to the first that is not repeated, at most `left` of them. */
  function Attempts(cfg: Config, replies: nat -> Reply, from: nat, left: nat): nat
    requires left > 0
    decreases left
  {
    if left == 1 || !Repeats(cfg, replies(from)) then 1 else 1 + Attempts(cfg, replies, from + 1, left - 1)
  }

  /** The wait before the next attempt, if the error asks for one. */
  function WaitOf(reply: Reply): seq<real> {
    if reply.Raised? && reply.error.RateLimitError? && reply.error.retryAfter.Some? && reply.error.retryAfter.value != 0.0
    then [reply.error.retryAfter.value] else []
  }

  function Waits(replies: nat -> Reply, from: nat, count: nat): seq<real> {
    if count == 0 then [] else Waits(replies, from, count - 1) + WaitOf(replies(from + count - 1))
  }

  /**
   * `LLMClientSession.generate`.  The answer is that of the first attempt that is not to be repeated, among
   * the first 1 + max_retries, or of the last of these; between attempts it waits as rate limits ask.
   */
  method Generate(cfg: Config, prompt: string, replies: nat -> Reply)
    returns (r: Outcome, calls: nat, waits: seq<real>)
    ensures Blank(prompt) ==> r == Failed(RequestValidationError) && calls == 0 && waits == []
    ensures !Blank(prompt) ==> 1 <= calls <= 1 + cfg.maxRetries
    ensures !Blank(prompt) ==> r == OutcomeOf(cfg, replies(calls - 1))
    ensures forall k: nat :: k < calls - 1 ==> Repeats(cfg, replies(k))
    ensures !Blank(prompt) && calls <= cfg.maxRetries ==> !Repeats(cfg, replies(calls - 1))
    ensures !Blank(prompt) ==> waits == Waits(replies, 0, calls - 1)
  {
    calls, waits := 0, [];
    if Blank(prompt) {
      return Failed(RequestValidationError), 0, [];
    }
    var lastError := ProviderError;
    for attempt := 1 to 1 + cfg.maxRetries + 1
      invariant calls == attempt - 1
      invariant forall k: nat :: k < calls ==> Repeats(cfg, replies(k))
      invariant calls > 0 ==> Failed(lastError) == OutcomeOf(cfg, replies(calls - 1))
      invariant waits == Waits(replies, 0, if calls <= cfg.maxRetries then calls else calls - 1)
    {
      var reply := replies(calls);
      calls := calls + 1;
      match reply {
        case Returned(response) =>
          return Normalized(cfg, response), calls, waits;  // a response error is never retryable
        case Raised(error) =>
          lastError := error;
          if !Retryable(error) {
            return Failed(error), calls, waits;
          }
          if attempt < 1 + cfg.maxRetries {
            waits := waits + WaitOf(reply);
          }
        case Unexpected =>
          return Failed(ProviderError), calls, waits;
      }
    }
    r := Failed(lastError);
  }

  /** The contract of Generate pins the number of calls down. */
  lemma {:induction false} CallsAreAttempts(cfg: Config, replies: nat -> Reply, from: nat, left: nat, calls: nat)
    requires 1 <= calls <= left
    requires forall i: nat :: from <= i < from + calls - 1 ==> Repeats(cfg, replies(i))
    requires calls < left ==> !Repeats(cfg, replies(from + calls - 1))
    ensures calls == Attempts(cfg, replies, from, left)
    decreases left
  {
    if calls > 1 {
      assert Repeats(cfg, replies(from));
      CallsAreAttempts(cfg, replies, from + 1, left - 1, calls - 1);
    }
  }

  function Total(waits: seq<real>): real {
    if waits == [] then 0.0 else Total(waits[..|waits| - 1]) + waits[|waits| - 1]
  }

  /** Repeated attempts never wait longer than thirty seconds each, so the whole delay is bounded. */
  lemma {:induction false} WaitsAreBounded(cfg: Config, replies: nat -> Reply, count: nat)
    requires forall k: nat :: k < count ==> Repeats(cfg, replies(k))
    ensures |Waits(replies, 0, count)| <= count && Total(Waits(replies, 0, count)) <= 30.0 * count as real
  {
    if count > 0 {
      WaitsAreBounded(cfg, replies, count - 1);
      var before, last := Waits(replies, 0, count - 1), WaitOf(replies(count - 1));
      assert Repeats(cfg, replies(count - 1));
      if last == [] {
        assert before + last == before;
      } else {
        assert (before + last)[..|before|] == before;
      }
    }
  }

  // ---- Which errors are repeated, and what becomes of a response ----

  /** It may pass: a timeout, a lost connection, a provider's fault, or a rate limit that ends within thirty seconds. */
  predicate Passing(reply: Reply) {
    || reply == Raised(TimeoutError) || reply == Raised(ConnectionError) || reply == Raised(ProviderError)
    || (reply.Raised? && reply.error.RateLimitError? && !reply.error.quotaExhausted
        && (reply.error.retryAfter.Some? ==> reply.error.retryAfter.value <= 30.0))
  }

  /** The seconds that a rate limit asks for, 0 when it does not say. */
  function Asked(reply: Reply): real {
    if reply.Raised? && reply.error.RateLimitError? && reply.error.retryAfter.Some? then reply.error.retryAfter.value else 0.0
  }

  function TotalAsked(replies: nat -> Reply, count: nat): real {
    if count == 0 then 0.0 else TotalAsked(replies, count - 1) + Asked(replies(count - 1))
  }

  /** An answer with some text that did not end in an error. */
  predicate Usable(reply: Reply) {
    && reply.Returned? && reply.response.content.Some? && reply.response.finish != "error"
    && exists i :: 0 <= i < |reply.response.content.value| && !IsSpace(reply.response.content.value[i])
  }

  lemma {:induction false} AttemptsThrough(cfg: Config, replies: nat -> Reply, from: nat, left: nat, k: nat)
    requires left > 0 && (forall i: nat :: from <= i < from + k ==> Passing(replies(i))) && !Passing(replies(from + k))
    ensures Attempts(cfg, replies, from, left) == if k < left then k + 1 else left
    decreases left
  {
    if left > 1 && k > 0 {
      assert Passing(replies(from));
      AttemptsThrough(cfg, replies, from + 1, left - 1, k - 1);
    }
  }

  lemma {:induction false} WaitsAsAsked(replies: nat -> Reply, count: nat)
    ensures Total(Waits(replies, 0, count)) == TotalAsked(replies, count)
    ensures 0.0 !in Waits(replies, 0, count)
  {
    if count > 0 {
      WaitsAsAsked(replies, count - 1);
      var before, last := Waits(replies, 0, count - 1), WaitOf(replies(count - 1));
      if last == [] {
        assert before + last == before;
      } else {
        assert (before + last)[..|before|] == before;
      }
    }
  }

  /**
   * When k replies may pass and the next one may not, there are k + 1 attempts, or as many as the retries allow.  Within
   * them the next reply is the answer: its text as it is, with the configured names where it gives none, if it is usable,
   * and an error if not.  Beyond them the last error is.
   */
  lemma {:induction false} AnswerAfter(cfg: Config, replies: nat -> Reply, k: nat)
    requires (forall i: nat :: i < k ==> Passing(replies(i))) && !Passing(replies(k))
    ensures var calls := Attempts(cfg, replies, 0, 1 + cfg.maxRetries);
            var answer, reply := OutcomeOf(cfg, replies(calls - 1)), replies(k);
            && calls == (if k <= cfg.maxRetries then k + 1 else cfg.maxRetries + 1)
            && Total(Waits(replies, 0, calls - 1)) == TotalAsked(replies, calls - 1)
            && 0.0 !in Waits(replies, 0, calls - 1)
            && (k > cfg.maxRetries ==> answer.Failed? && replies(cfg.maxRetries) == Raised(answer.error))
            && (k <= cfg.maxRetries ==> (answer.Done? <==> Usable(reply)))
            && (k <= cfg.maxRetries && Usable(reply) ==>
                 answer.response == reply.response.(
                   model := if reply.response.model == "" then cfg.model else reply.response.model,
                   provider := if reply.response.provider == "" then cfg.provider else reply.response.provider))
            && (k <= cfg.maxRetries && !Usable(reply) ==>
                 answer == Failed(match reply case Returned(_) => ResponseError case Raised(e) => e
                                  case Unexpected => ProviderError))
  {
    AttemptsThrough(cfg, replies, 0, 1 + cfg.maxRetries, k);
    WaitsAsAsked(replies, Attempts(cfg, replies, 0, 1 + cfg.maxRetries) - 1);
  }
}
