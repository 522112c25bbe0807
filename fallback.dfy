/** The retry loop of `sync` (src/commands/sync.ts): each candidate model
    is tried in order; a run that resolves ends the loop, a failure whose
    text looks like a quota error moves on to the next candidate, and any
    other failure (or a quota failure on the last candidate) gives up. */
module Fallback {
  import opened Text
  import opened Wrappers
  import opened Executor

  /** `error.toString()` for an `Error` carrying `message`. */
  function ErrorText(message: string): (r: string)
    ensures EndsWith(r, message) && StartsWith(r, "Error: ")
  {
    var r := "Error: " + message;
    assert r[|r| - |message|..] == message;
    assert r[..7] == "Error: ";
    r
  }

  /** The retry test of the fallback loop in `sync`: the error text mentions 429 or "Quota exceeded". */
  predicate LooksLikeQuota(text: string) {
    Contains(text, "429") || Contains(text, QuotaText)
  }

  predicate Retryable(o: Outcome) {
    o.Rejected? && LooksLikeQuota(ErrorText(o.message))
  }

  datatype Verdict = Done(model: string, output: string) | GaveUp(lastError: string)

  /** The process behind `runGeminiWithTimeout`: the events a run with a
      given argument vector produces. */
  type Backend = seq<string> -> seq<Event>

  function AttemptOutcome(backend: Backend, model: string, query: string, seconds: nat): Outcome {
    Expected(backend(Args(model, query)), seconds)
  }

  /** The outcome of each candidate, had it been tried. */
  function Outcomes(backend: Backend, chain: seq<string>, query: string, seconds: nat): (r: seq<Outcome>)
    ensures |r| == |chain|
    ensures forall j :: 0 <= j < |chain| ==> r[j] == AttemptOutcome(backend, chain[j], query, seconds)
  {
    seq(|chain|, j requires 0 <= j < |chain| => AttemptOutcome(backend, chain[j], query, seconds))
  }

  /** Where the loop ends when started at candidate `i`: the number of
      candidates tried and the verdict. Every candidate before the last one
      tried failed with a quota-looking error; the last one tried either
      resolved (and the loop returns its output), failed otherwise, or was
      the final candidate. */
  function Decide(chain: seq<string>, outcomes: seq<Outcome>, i: nat): (r: (nat, Verdict))
    requires |outcomes| == |chain| && i < |chain|
    ensures i < r.0 <= |chain|
    ensures forall j :: i <= j < r.0 - 1 ==> Retryable(outcomes[j])
    ensures var last := outcomes[r.0 - 1];
      (r.1.Done? <==> last.Resolved?) &&
      (r.1.Done? ==> r.1 == Done(chain[r.0 - 1], last.output)) &&
      (r.1.GaveUp? ==> r.1 == GaveUp(last.message) && (r.0 == |chain| || !Retryable(last)))
    decreases |chain| - i
  {
    if outcomes[i].Resolved? then (i + 1, Done(chain[i], outcomes[i].output))
    else if Retryable(outcomes[i]) && i < |chain| - 1 then Decide(chain, outcomes, i + 1)
    else (i + 1, GaveUp(outcomes[i].message))
  }

  /** The fallback loop of `sync`: tries the candidates in order with the same query and
      timeout. `tried` lists the models run, in order. */
  method RunFallback(chain: seq<string>, query: string, seconds: nat, format: bool, backend: Backend)
    returns (verdict: Verdict, tried: seq<string>)
    requires chain != []
    ensures |tried| <= |chain| && tried == chain[..|tried|]
    ensures (|tried|, verdict) == Decide(chain, Outcomes(backend, chain, query, seconds), 0)
  {
    ghost var outcomes := Outcomes(backend, chain, query, seconds);
    var i := 0;
    tried := [];
    var lastError := "";
    while i < |chain|
      invariant 0 <= i < |chain|
      invariant tried == chain[..i]
      invariant Decide(chain, outcomes, i) == Decide(chain, outcomes, 0)
      decreases |chain| - i
    {
      var o, _ := RunAttempt(backend(Args(chain[i], query)), seconds, format);
      assert o == outcomes[i];
      TakeSnoc(chain, i);
      tried := tried + [chain[i]];
      if o.Resolved? {
        verdict := Done(chain[i], o.output);
        return;
      }
      lastError := o.message;
      if LooksLikeQuota(ErrorText(o.message)) && i < |chain| - 1 {
        i := i + 1;
        continue;
      }
      break;
    }
    verdict := GaveUp(lastError);
  }

  /** Three candidates where the first two hit the quota and the third
      answers: all three are tried and the third one's output is returned. */
  lemma {:induction false} QuotaQuotaSuccess(chain: seq<string>, outcomes: seq<Outcome>)
    requires |chain| == 3 && |outcomes| == 3
    requires Retryable(outcomes[0]) && Retryable(outcomes[1]) && outcomes[2].Resolved?
    ensures Decide(chain, outcomes, 0) == (3, Done(chain[2], outcomes[2].output))
  {
    assert Decide(chain, outcomes, 1) == Decide(chain, outcomes, 2);
  }

  /** A failure that is not quota-like on the first candidate stops at once. */
  lemma {:induction false} OtherFailureStops(chain: seq<string>, outcomes: seq<Outcome>)
    requires |chain| == |outcomes| > 0
    requires outcomes[0].Rejected? && !Retryable(outcomes[0])
    ensures Decide(chain, outcomes, 0) == (1, GaveUp(outcomes[0].message))
  {
  }

  /** A quota error on every candidate tries them all and reports the last
      error. */
  lemma {:induction false} AllQuotaTriesAll(chain: seq<string>, outcomes: seq<Outcome>, i: nat)
    requires |chain| == |outcomes| && i < |chain|
    requires forall j :: 0 <= j < |chain| ==> Retryable(outcomes[j])
    ensures Decide(chain, outcomes, i).0 == |chain| && Decide(chain, outcomes, i).1.GaveUp?
    decreases |chain| - i
  {
    if i < |chain| - 1 {
      AllQuotaTriesAll(chain, outcomes, i + 1);
    }
  }

  /** A close whose stderr holds a quota match is always retried. */
  lemma {:induction false} QuotaCloseIsRetryable(code: Option<nat>, out: string, err: string)
    requires code != Some(0) && QuotaMatch(err).Some?
    ensures Retryable(CloseOutcome(code, out, err))
  {
    QuotaBeforeBadRequest(code, err);
    var msg := FailureMessage(code, err);
    ContainsInRight("Error: ", msg, "429");
  }

  /** A failed exit whose stderr has no quota match, no 400 marker and no
      "429" or "Quota exceeded" anywhere is not retried (as long as the exit
      code itself has no digit 4). */
  lemma {:induction false} OtherExitIsFinal(code: Option<nat>, err: string)
    requires code != Some(0) && QuotaMatch(err).None?
    requires !Contains(err, "400") && !Contains(err, "Bad Request") && !Contains(err, "invalid argument")
    requires !Contains(err, "429") && !Contains(err, QuotaText)
    requires '4' !in CodeText(code)
    ensures !Retryable(CloseOutcome(code, "", err))
  {
    var p := ExitPrefix(code);
    OtherExitText(code, err);
    NotContainsAfter(p, err, "429");
    NotContainsAfter(p, err, QuotaText);
  }

  /** What `error.toString()` puts before stderr for an exit failure. */
  function ExitPrefix(code: Option<nat>): (p: string)
    ensures '4' !in CodeText(code) ==> '4' !in p
    ensures 'Q' !in p
  {
    var c := CodeText(code);
    CodeTextHasNoQ(code);
    ExitLeadChars();
    CharNotInJoin(ExitLead, c, ": ", 'Q');
    CharNotInJoin(ExitLead, c, ": ", '4');
    ExitLead + c + ": "
  }

  const ExitLead: string := "Error: Gemini exited with code "

  lemma {:induction false} ExitLeadChars()
    ensures 'Q' !in ExitLead && '4' !in ExitLead && 'Q' !in ": " && '4' !in ": "
  {
  }

  lemma {:induction false} CodeTextHasNoQ(code: Option<nat>)
    ensures 'Q' !in CodeText(code)
  {
    var c := CodeText(code);
    if code.Some? {
      assert forall k :: 0 <= k < |c| ==> IsDigit(c[k]);
    } else {
      assert c == "null";
    }
  }

  lemma {:induction false} OtherExitText(code: Option<nat>, err: string)
    requires code != Some(0) && QuotaMatch(err).None?
    requires !Contains(err, "400") && !Contains(err, "Bad Request") && !Contains(err, "invalid argument")
    ensures CloseOutcome(code, "", err) == Rejected(FailureMessage(code, err))
    ensures ErrorText(FailureMessage(code, err)) == ExitPrefix(code) + err
  {
    var c := CodeText(code);
    assert FailureMessage(code, err) == "Gemini exited with code " + c + ": " + err;
    ExitTextJoin(c, err);
  }

  lemma {:induction false} ExitTextJoin(c: string, err: string)
    ensures ErrorText("Gemini exited with code " + c + ": " + err) == ExitLead + c + ": " + err
  {
    assert "Error: " + "Gemini exited with code " == ExitLead;
  }

  lemma {:induction false} CharNotInJoin(a: string, b: string, c: string, ch: char)
    requires ch !in a && ch !in c
    ensures ch !in b ==> ch !in a + b + c
  {
  }

  /** The timeout message for a 429-second timeout contains "429", so such a
      timeout is retried like a quota error. */
  lemma {:induction false} Timeout429IsRetried()
    ensures Retryable(Rejected(TimeoutMessage(429)))
  {
    assert NatToString(4) == "4";
    assert NatToString(42) == "42";
    assert NatToString(429) == "429";
    var text := ErrorText(TimeoutMessage(429));
    assert text[21..24] == "429";
    ContainsAt(text, "429", 21);
  }
}
