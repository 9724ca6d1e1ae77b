/** One model request with its retries (model_access.py, `classify` and `resolve`). */
module Retry {
  import opened Arithmetic

  // What an attempt came back with: the HTTP status, absent when nothing answered, and what the body
  // says, as far as the decision looks at it.
  datatype Reply = Reply(
    answered: bool,
    status: int,
    tooLong: bool,          // the error message has one of the context-length markers
    choices: bool,
    usage: bool,            // the body reports its token usage
    completionTokens: int,
    refusal: bool)          // finish_reason is content_filter

  // How one `send` ends: with a reply, or without having asked at all.
  datatype Sent = Answered(reply: Reply) | NoCredential | NoProvider

  datatype Outcome =
    | Response
    | Again(nextAttempt: int)
    | NeedsCredentialOrProviderChange
    | NeedsContextCompression
    | Degenerate
    | Abort

  predicate Transient(r: Reply) {
    !r.answered || r.status == 429 || 500 <= r.status < 600
  }

  function Classify(r: Reply, attempt: int, maxRetries: int): Outcome {
    if r.answered && (r.status == 401 || r.status == 403) then NeedsCredentialOrProviderChange
    else if Transient(r) then (if attempt < maxRetries then Again(attempt + 1) else Abort)
    else if r.status == 413 || r.tooLong then NeedsContextCompression
    else if r.status == 200 then
      if !r.choices then Degenerate
      else if r.usage && r.completionTokens == 0 && !r.refusal then Degenerate
      else Response
    else Abort
  }

  /** What a caller may rely on, whatever the body says: a rejected credential is reported as such, a
      transient failure is retried below the cap and nothing else ever is, and a reply is used only if
      it is a success that made a choice and spent tokens, or refused. */
  lemma {:induction false} ClassifyBoundaries(r: Reply, attempt: int, maxRetries: int)
    ensures var o := Classify(r, attempt, maxRetries);
            && (o.Again? <==> Transient(r) && attempt < maxRetries) && (o.Again? ==> o.nextAttempt == attempt + 1)
            && (r.answered && r.status in {401, 403} <==> o.NeedsCredentialOrProviderChange?)
            && (o.Response? ==> r.answered && r.status == 200 && r.choices && (!r.usage || r.completionTokens != 0 || r.refusal))
            && (r.answered && r.status == 413 ==> o.NeedsContextCompression?)
            && (Transient(r) && attempt >= maxRetries ==> o.Abort?)
  {
  }

  function OutcomeOf(s: Sent, attempt: int, maxRetries: int): Outcome {
    match s
    case Answered(r) => Classify(r, attempt, maxRetries)
    case NoCredential => NeedsCredentialOrProviderChange
    case NoProvider => NeedsCredentialOrProviderChange
  }

  predicate WorthRetrying(s: Sent) {
    s.Answered? && Transient(s.reply)
  }

  /** The requests number `sends`: all but the last failed transiently, and a transient failure ends
      the series only at the cap. */
  ghost predicate Stops(provider: int -> Sent, attempt: int, maxRetries: int, sends: nat) {
    && 1 <= sends <= Max(0, maxRetries - attempt) + 1
    && (forall k :: attempt <= k < attempt + sends - 1 ==> WorthRetrying(provider(k)))
    && (WorthRetrying(provider(attempt + sends - 1)) ==> sends == Max(0, maxRetries - attempt) + 1)
  }

  /** Send until an attempt is not worth retrying or the cap is reached. The provider may answer each
      attempt as it likes. At most `max(0, maxRetries - attempt) + 1` requests go out, numbered one
      after the other, and the last one decides. */
  method Resolve(provider: int -> Sent, attempt: int, maxRetries: int) returns (outcome: Outcome, sends: nat)
    ensures !outcome.Again?
    ensures Stops(provider, attempt, maxRetries, sends)
    ensures outcome == OutcomeOf(provider(attempt + sends - 1), attempt + sends - 1, maxRetries)
    ensures WorthRetrying(provider(attempt + sends - 1)) ==> outcome.Abort?
  {
    var current := attempt;
    sends := 0;
    while true
      invariant current == attempt + sends
      invariant sends > 0 ==> current <= maxRetries
      invariant forall k :: attempt <= k < current ==> WorthRetrying(provider(k))
      decreases maxRetries - current
    {
      outcome := OutcomeOf(provider(current), current, maxRetries);
      sends := sends + 1;
      if !outcome.Again? {
        return;
      }
      current := outcome.nextAttempt;
    }
  }

  /** The number of requests is fixed by the answers: one more than the transient failures before the
      first other answer, cut off at the cap. */
  lemma {:induction false} SendsDetermined(provider: int -> Sent, attempt: int, maxRetries: int, m: nat, n: nat)
    requires Stops(provider, attempt, maxRetries, m) && Stops(provider, attempt, maxRetries, n)
    ensures m == n
  {
  }
}
