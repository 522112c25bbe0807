/** One run of the Gemini CLI (`runGeminiWithTimeout` in
    src/commands/sync.ts): the argument vector, the classification of a
    failed exit, and the event handlers that turn stdout/stderr chunks,
    `close`, the timer and a spawn `error` into one settled outcome.

    Spawning, real timers and signals are not modelled: the process is seen
    only through the sequence of events it produces. */
module Executor {
  import opened Text
  import opened Wrappers

  // ---------------------------------------------------------------------
  // Argument vector of `runGeminiWithTimeout`.

  /** `['-y']`, then `-m model` when the model is non-empty after trimming,
      then `-p query`. */
  function Args(model: string, query: string): seq<string> {
    ArgsFor(model != "" && Trim(model) != "", model, query)
  }

  /** The vector with or without the `-m model` pair. */
  function ArgsFor(named: bool, model: string, query: string): seq<string> {
    ["-y"] + (if named then ["-m", model] else []) + ["-p", query]
  }

  /** The model is passed exactly when it is not blank. */
  lemma ModelNamed(model: string)
    ensures (model != "" && Trim(model) != "") == !IsBlank(model)
  {
    TrimBlank(model);
    if model == "" {
      assert IsBlank(model);
    }
  }

  /** The value following a leading `-y -m`, if the vector has that form. */
  function ModelArg(args: seq<string>): Option<string> {
    if |args| == 5 && args[0] == "-y" && args[1] == "-m" && args[3] == "-p" then Some(args[2]) else None
  }

  /** The value following the final `-p`. */
  function QueryArg(args: seq<string>): Option<string> {
    if |args| >= 2 && args[|args| - 2] == "-p" then Some(args[|args| - 1]) else None
  }

  /** The vector always starts with `-y` and ends with `-p query`; it carries
      the model exactly when the model is not blank, and reading the vector
      back gives the model and the query that built it. */
  lemma {:induction false} ArgsRoundTrip(model: string, query: string)
    ensures var args := Args(model, query);
      args[0] == "-y" &&
      |args| == (if IsBlank(model) then 3 else 5) &&
      QueryArg(args) == Some(query) &&
      ModelArg(args) == (if IsBlank(model) then None else Some(model))
  {
    ModelNamed(model);
    ArgsForRoundTrip(!IsBlank(model), model, query);
  }

  /** Reading back a vector built with or without the model pair. */
  lemma ArgsForRoundTrip(named: bool, model: string, query: string)
    ensures var args := ArgsFor(named, model, query);
      args[0] == "-y" && |args| == (if named then 5 else 3) &&
      QueryArg(args) == Some(query) && ModelArg(args) == (if named then Some(model) else None)
  {
    if named {
      assert ArgsFor(named, model, query) == ["-y", "-m", model, "-p", query];
    } else {
      assert ArgsFor(named, model, query) == ["-y", "-p", query];
    }
  }

  // ---------------------------------------------------------------------
  // The quota pattern `/Quota exceeded.*?\./`: a leftmost match of
  // "Quota exceeded" followed by the nearest '.', with no line terminator in
  // between ('.' in a JavaScript pattern does not match one).

  const QuotaText: string := "Quota exceeded"

  predicate IsLineTerminator(c: char) {
    c == '\n' || c == '\r' || c == '\U{2028}' || c == '\U{2029}'
  }

  /** `q` is the first '.' at or after `i`, reached without crossing a line
      terminator. */
  predicate DotRun(s: string, i: nat, q: nat) {
    i <= q < |s| && s[q] == '.' &&
    forall k :: i <= k < q ==> s[k] != '.' && !IsLineTerminator(s[k])
  }

  /** `s[a..b]` is what the lazy pattern matches when started at `a`. */
  predicate IsQuotaMatch(s: string, a: nat, b: nat) {
    a + |QuotaText| <= |s| && s[a..a + |QuotaText|] == QuotaText &&
    b >= 1 && DotRun(s, a + |QuotaText|, b - 1)
  }

  function DotEnd(s: string, i: nat): (r: Option<nat>)
    ensures r.Some? ==> DotRun(s, i, r.value)
    ensures r.None? ==> forall q: nat :: !DotRun(s, i, q)
    decreases |s| - i
  {
    if i >= |s| then None
    else if s[i] == '.' then Some(i)
    else if IsLineTerminator(s[i]) then
      assert forall q: nat :: DotRun(s, i, q) ==> q == i;
      None
    else
      var r := DotEnd(s, i + 1);
      assert forall q: nat :: DotRun(s, i, q) ==> DotRun(s, i + 1, q);
      r
  }

  /** The leftmost match starting at or after `p`. */
  function QuotaMatchFrom(s: string, p: nat): (r: Option<(nat, nat)>)
    ensures r.Some? ==> p <= r.value.0 && IsQuotaMatch(s, r.value.0, r.value.1)
    ensures r.Some? ==> forall a: nat, b: nat :: p <= a < r.value.0 ==> !IsQuotaMatch(s, a, b)
    ensures r.None? ==> forall a: nat, b: nat :: p <= a ==> !IsQuotaMatch(s, a, b)
    decreases |s| - p
  {
    if p + |QuotaText| > |s| then None
    else
      var d := DotEnd(s, p + |QuotaText|);
      if s[p..p + |QuotaText|] == QuotaText && d.Some? then Some((p, d.value + 1))
      else
        assert forall b: nat :: !IsQuotaMatch(s, p, b);
        QuotaMatchFrom(s, p + 1)
  }

  /** `error.match(/Quota exceeded.*?\./g)[0]` as a pair of bounds: the
      leftmost match, or none at all. */
  function QuotaMatch(s: string): (r: Option<(nat, nat)>)
    ensures r.Some? ==> IsQuotaMatch(s, r.value.0, r.value.1)
    ensures r.Some? ==> forall a: nat, b: nat :: a < r.value.0 ==> !IsQuotaMatch(s, a, b)
    ensures r.None? ==> forall a: nat, b: nat :: !IsQuotaMatch(s, a, b)
  {
    QuotaMatchFrom(s, 0)
  }

  /** A quota match begins with "Quota exceeded" and ends with '.'. */
  lemma {:induction false} QuotaMatchText(s: string)
    requires QuotaMatch(s).Some?
    ensures var m := QuotaMatch(s).value;
      m.0 < m.1 <= |s| &&
      StartsWith(s[m.0..m.1], QuotaText) && s[m.1 - 1] == '.'
  {
    var m := QuotaMatch(s).value;
    assert s[m.0..m.1][..|QuotaText|] == s[m.0..m.0 + |QuotaText|];
  }

  // ---------------------------------------------------------------------
  // Outcome of a close event (the `close` handler).

  datatype Outcome = Resolved(output: string) | Rejected(message: string)

  const InvalidRequestHelp: string :=
    "\n\nThis often happens when:\n1. File paths don't exist\n2. Query format is incorrect\n3. Special characters aren't properly escaped"

  /** `${code}` for an exit code, or `null` when the process died of a
      signal. */
  function CodeText(code: Option<nat>): string {
    match code
    case None => "null"
    case Some(n) => NatToString(n)
  }

  /** The message a non-zero (or missing) exit code is rejected with. */
  function FailureMessage(code: Option<nat>, err: string): string {
    match QuotaMatch(err)
    case Some(m) => "429: " + err[m.0..m.1]
    case None =>
      if Contains(err, "400") || Contains(err, "Bad Request") || Contains(err, "invalid argument") then
        "Invalid request: " + err + InvalidRequestHelp
      else
        "Gemini exited with code " + CodeText(code) + ": " + err
  }

  function CloseOutcome(code: Option<nat>, out: string, err: string): Outcome {
    if code == Some(0) then Resolved(out) else Rejected(FailureMessage(code, err))
  }

  /** Exit code 0 resolves with the captured stdout, whatever stderr holds;
      any other code rejects. */
  lemma {:induction false} CloseResolvesIffZero(code: Option<nat>, out: string, err: string)
    ensures CloseOutcome(code, out, err).Resolved? <==> code == Some(0)
    ensures code == Some(0) ==> CloseOutcome(code, out, err) == Resolved(out)
  {
  }

  /** The quota branch is tried first: a stderr text with a quota match is
      reported as `429: <first match>` even when it also mentions 400 or
      Bad Request, and the message then contains both "429" and
      "Quota exceeded". */
  lemma {:induction false} QuotaBeforeBadRequest(code: Option<nat>, err: string)
    requires code != Some(0) && QuotaMatch(err).Some?
    ensures var m := QuotaMatch(err).value;
      CloseOutcome(code, "", err) == Rejected("429: " + err[m.0..m.1])
    ensures Contains(FailureMessage(code, err), "429")
    ensures Contains(FailureMessage(code, err), QuotaText)
  {
    var m := QuotaMatch(err).value;
    QuotaMatchText(err);
    var msg := "429: " + err[m.0..m.1];
    assert msg[..3] == "429";
    assert msg[5..5 + |QuotaText|] == err[m.0..m.1][..|QuotaText|];
    ContainsAt(msg, QuotaText, 5);
  }

  /** Without a quota match, a stderr text mentioning 400, Bad Request or
      invalid argument is reported as an invalid request, and the full
      stderr text is kept in the message. */
  lemma {:induction false} BadRequestMessage(code: Option<nat>, err: string)
    requires code != Some(0) && QuotaMatch(err).None?
    requires Contains(err, "400") || Contains(err, "Bad Request") || Contains(err, "invalid argument")
    ensures FailureMessage(code, err) == "Invalid request: " + err + InvalidRequestHelp
    ensures Contains(FailureMessage(code, err), err)
  {
    var msg := "Invalid request: " + err + InvalidRequestHelp;
    assert msg[17..17 + |err|] == err;
    ContainsAt(msg, err, 17);
  }

  /** Otherwise the message names the exit code and carries stderr at its
      end. */
  lemma {:induction false} OtherFailureMessage(code: Option<nat>, err: string)
    requires code != Some(0) && QuotaMatch(err).None?
    requires !Contains(err, "400") && !Contains(err, "Bad Request") && !Contains(err, "invalid argument")
    ensures StartsWith(FailureMessage(code, err), "Gemini exited with code " + CodeText(code) + ": ")
    ensures EndsWith(FailureMessage(code, err), err)
  {
    var p := "Gemini exited with code " + CodeText(code) + ": ";
    var msg := p + err;
    assert msg[..|p|] == p;
    assert msg[|msg| - |err|..] == err;
  }

  /** `Timeout after ${timeout / 1000} seconds. ...` for a timeout given in
      whole seconds. */
  function TimeoutMessage(seconds: nat): string {
    "Timeout after " + NatToString(seconds) + " seconds. The Gemini CLI appears to be hanging."
  }

  // ---------------------------------------------------------------------
  // The events a run produces, and what the handlers make of them.

  datatype Event =
    | StdoutData(chunk: string)
    | StderrData(chunk: string)
    | Closed(code: Option<nat>)
    | TimerFired
    | SpawnFailed(message: string)
    | ProgressTick(elapsed: nat)

  /** The stderr notices that start streaming when output is formatted; a
      dotenv banner never does. */
  predicate NoticeStartsStreaming(chunk: string, format: bool) {
    !Contains(chunk, "[dotenv@") && format &&
    (Contains(chunk, "Slow response times detected") ||
     Contains(chunk, "switching from") ||
     Contains(chunk, "Automatically switching"))
  }

  /** What the stdout/stderr handlers recognise as the start of the
      response. */
  predicate StartsStreaming(e: Event, format: bool) {
    e.StdoutData? || (e.StderrData? && NoticeStartsStreaming(e.chunk, format))
  }

  /** Close, the timer and a spawn error each try to settle the promise. */
  predicate Settles(e: Event) {
    e.Closed? || e.TimerFired? || e.SpawnFailed?
  }

  class Attempt {
    const format: bool
    const seconds: nat
    var output: string
    var error: string
    var hasStartedStreaming: bool
    /** The promise: `None` while pending; once `Some`, it never changes. */
    var settled: Option<Outcome>
    var intervalActive: bool
    var timerActive: bool
    /** The arguments `onProgress` was called with, in order. */
    var progress: seq<int>

    predicate Valid()
      reads this
    {
      (hasStartedStreaming <==> |progress| > 0 && progress[|progress| - 1] == -1) &&
      (forall i :: 0 <= i < |progress| ==> progress[i] >= 0 || (i == |progress| - 1 && progress[i] == -1)) &&
      (hasStartedStreaming ==> !intervalActive) &&
      (timerActive <==> settled.None?) &&
      (settled.Some? ==> !intervalActive)
    }

    /** The state right after spawning: both timers armed, nothing captured. */
    constructor(format: bool, seconds: nat)
      ensures Valid()
      ensures this.format == format && this.seconds == seconds
      ensures output == "" && error == "" && !hasStartedStreaming
      ensures settled == None && intervalActive && timerActive && progress == []
    {
      this.format := format;
      this.seconds := seconds;
      output := "";
      error := "";
      hasStartedStreaming := false;
      settled := None;
      intervalActive := true;
      timerActive := true;
      progress := [];
    }

    /** The first start of streaming clears the interval and calls
        `onProgress(-1)`; later ones do nothing. */
    method StartStreaming()
      requires Valid()
      modifies this
      ensures Valid()
      ensures hasStartedStreaming && !intervalActive
      ensures progress == if old(hasStartedStreaming) then old(progress) else old(progress) + [-1]
      ensures output == old(output) && error == old(error) && settled == old(settled)
      ensures timerActive == old(timerActive)
    {
      if !hasStartedStreaming {
        hasStartedStreaming := true;
        intervalActive := false;
        progress := progress + [-1];
      }
    }

    /** `resolve`/`reject`: only the first call has an effect. */
    method Settle(o: Outcome)
      modifies this
      ensures settled == if old(settled).None? then Some(o) else old(settled)
      ensures output == old(output) && error == old(error) && progress == old(progress)
      ensures hasStartedStreaming == old(hasStartedStreaming)
      ensures intervalActive == old(intervalActive) && timerActive == old(timerActive)
    {
      if settled.None? {
        settled := Some(o);
      }
    }

    /** A stdout chunk is appended to the captured output and starts
        streaming. */
    method OnStdout(chunk: string)
      requires Valid()
      modifies this
      ensures Valid()
      ensures output == old(output) + chunk && error == old(error)
      ensures settled == old(settled) && timerActive == old(timerActive)
      ensures hasStartedStreaming && !intervalActive
      ensures progress == if old(hasStartedStreaming) then old(progress) else old(progress) + [-1]
    {
      output := output + chunk;
      StartStreaming();
    }

    /** Every stderr chunk, a dotenv banner included, is appended to the
        error text; a model-switching notice starts streaming when output is
        formatted. */
    method OnStderr(chunk: string)
      requires Valid()
      modifies this
      ensures Valid()
      ensures error == old(error) + chunk && output == old(output)
      ensures settled == old(settled) && timerActive == old(timerActive)
      ensures var starts := !old(hasStartedStreaming) && NoticeStartsStreaming(chunk, format);
        hasStartedStreaming == (old(hasStartedStreaming) || starts) &&
        intervalActive == (old(intervalActive) && !starts) &&
        progress == if starts then old(progress) + [-1] else old(progress)
    {
      error := error + chunk;
      if Contains(chunk, "[dotenv@") {
        return;
      }
      if format {
        if Contains(chunk, "Slow response times detected") ||
           Contains(chunk, "switching from") ||
           Contains(chunk, "Automatically switching") {
          StartStreaming();
        }
      }
    }

    /** `close`: both timers are cleared and the exit code decides the
        outcome, unless the promise has already settled. */
    method OnClose(code: Option<nat>)
      requires Valid()
      modifies this
      ensures Valid()
      ensures !timerActive && !intervalActive
      ensures settled == if old(settled).None? then Some(CloseOutcome(code, old(output), old(error))) else old(settled)
      ensures output == old(output) && error == old(error) && progress == old(progress)
      ensures hasStartedStreaming == old(hasStartedStreaming)
    {
      timerActive := false;
      intervalActive := false;
      if code == Some(0) {
        Settle(Resolved(output));
      } else {
        Settle(Rejected(FailureMessage(code, error)));
      }
    }

    /** The timeout fires only while it is still armed; it clears the
        interval and rejects with the timeout message. */
    method OnTimer()
      requires Valid()
      modifies this
      ensures Valid()
      ensures !timerActive
      ensures settled == if old(settled).None? then Some(Rejected(TimeoutMessage(seconds))) else old(settled)
      ensures intervalActive == (old(intervalActive) && !old(timerActive))
      ensures output == old(output) && error == old(error) && progress == old(progress)
      ensures hasStartedStreaming == old(hasStartedStreaming)
    {
      if timerActive {
        intervalActive := false;
        timerActive := false;
        Settle(Rejected(TimeoutMessage(seconds)));
      }
    }

    /** A spawn `error`: both timers are cleared and the error is passed on. */
    method OnError(message: string)
      requires Valid()
      modifies this
      ensures Valid()
      ensures !timerActive && !intervalActive
      ensures settled == if old(settled).None? then Some(Rejected(message)) else old(settled)
      ensures output == old(output) && error == old(error) && progress == old(progress)
      ensures hasStartedStreaming == old(hasStartedStreaming)
    {
      timerActive := false;
      intervalActive := false;
      Settle(Rejected(message));
    }

    /** The two-second interval reports the elapsed time until streaming
        starts. */
    method OnTick(elapsed: nat)
      requires Valid()
      modifies this
      ensures Valid()
      ensures progress == if old(intervalActive) && !old(hasStartedStreaming) then old(progress) + [elapsed] else old(progress)
      ensures output == old(output) && error == old(error) && settled == old(settled)
      ensures hasStartedStreaming == old(hasStartedStreaming)
      ensures intervalActive == old(intervalActive) && timerActive == old(timerActive)
    {
      if intervalActive && !hasStartedStreaming {
        progress := progress + [elapsed];
      }
    }
  }

  // ---------------------------------------------------------------------
  // What a run amounts to, stated on the event sequence alone.

  /** The first position whose event satisfies `p`, or `|es|`. */
  function FirstWhere(es: seq<Event>, p: Event -> bool): (r: nat)
    ensures r <= |es|
    ensures r < |es| ==> p(es[r])
    ensures forall j :: 0 <= j < r ==> !p(es[j])
    decreases |es|
  {
    if es == [] then 0
    else
      var k := FirstWhere(es[..|es| - 1], p);
      if k < |es| - 1 then k
      else if p(es[|es| - 1]) then |es| - 1
      else |es|
  }

  function FirstSettle(es: seq<Event>): nat {
    FirstWhere(es, Settles)
  }

  function StreamStart(es: seq<Event>, format: bool): nat {
    FirstWhere(es, e => StartsStreaming(e, format))
  }

  /** All stdout chunks, in order. */
  function StdoutText(es: seq<Event>): string
    decreases |es|
  {
    if es == [] then ""
    else StdoutText(es[..|es| - 1]) + (if es[|es| - 1].StdoutData? then es[|es| - 1].chunk else "")
  }

  /** All stderr chunks, in order. */
  function StderrText(es: seq<Event>): string
    decreases |es|
  {
    if es == [] then ""
    else StderrText(es[..|es| - 1]) + (if es[|es| - 1].StderrData? then es[|es| - 1].chunk else "")
  }

  /** The elapsed times of all interval ticks, in order. */
  function Ticks(es: seq<Event>): (r: seq<int>)
    ensures forall i :: 0 <= i < |r| ==> r[i] >= 0
    decreases |es|
  {
    if es == [] then []
    else Ticks(es[..|es| - 1]) + (if es[|es| - 1].ProgressTick? then [es[|es| - 1].elapsed] else [])
  }

  /** The outcome decided by the settling event at position `k`. */
  function OutcomeAt(es: seq<Event>, k: nat, seconds: nat): Outcome
    requires k < |es| && Settles(es[k])
  {
    match es[k]
    case Closed(code) => CloseOutcome(code, StdoutText(es[..k]), StderrText(es[..k]))
    case TimerFired => Rejected(TimeoutMessage(seconds))
    case SpawnFailed(m) => Rejected(m)
  }

  /** The promise's value: decided by the first settling event; if none
      comes, the armed timer fires. */
  function Expected(es: seq<Event>, seconds: nat): Outcome {
    var k := FirstSettle(es);
    if k < |es| then OutcomeAt(es, k, seconds) else Rejected(TimeoutMessage(seconds))
  }

  /** The `onProgress` calls: the ticks before streaming starts or the run
      settles, then `-1` once if streaming ever starts. */
  function ExpectedProgress(es: seq<Event>, format: bool): seq<int> {
    var s := StreamStart(es, format);
    var f := FirstSettle(es);
    Ticks(es[..if s < f then s else f]) + (if s < |es| then [-1] else [])
  }

  // ---------------------------------------------------------------------
  // One more event, seen from the specification.

  lemma {:induction false} FirstWhereSnoc(es: seq<Event>, e: Event, p: Event -> bool)
    ensures FirstWhere(es + [e], p) ==
      if FirstWhere(es, p) < |es| then FirstWhere(es, p) else if p(e) then |es| else |es| + 1
  {
    assert (es + [e])[..|es|] == es;
  }

  lemma {:induction false} TextSnoc(es: seq<Event>, e: Event)
    ensures StdoutText(es + [e]) == StdoutText(es) + (if e.StdoutData? then e.chunk else "")
    ensures StderrText(es + [e]) == StderrText(es) + (if e.StderrData? then e.chunk else "")
    ensures Ticks(es + [e]) == Ticks(es) + (if e.ProgressTick? then [e.elapsed] else [])
  {
    assert (es + [e])[..|es|] == es;
  }

  /** Events after the settling one do not change what it decided. */
  lemma {:induction false} OutcomeAtSnoc(es: seq<Event>, e: Event, k: nat, seconds: nat)
    requires k < |es| && Settles(es[k])
    ensures OutcomeAt(es + [e], k, seconds) == OutcomeAt(es, k, seconds)
  {
    assert (es + [e])[..k] == es[..k];
  }

  lemma {:induction false} PrefixSnoc(es: seq<Event>, e: Event, m: nat)
    requires m <= |es|
    ensures (es + [e])[..m] == es[..m]
  {
  }

  lemma {:induction false} StreamStartSnoc(es: seq<Event>, e: Event, format: bool)
    ensures StreamStart(es + [e], format) ==
      if StreamStart(es, format) < |es| then StreamStart(es, format)
      else if StartsStreaming(e, format) then |es| else |es| + 1
  {
    FirstWhereSnoc(es, e, x => StartsStreaming(x, format));
  }

  lemma {:induction false} FirstSettleSnoc(es: seq<Event>, e: Event)
    ensures FirstSettle(es + [e]) ==
      if FirstSettle(es) < |es| then FirstSettle(es) else if Settles(e) then |es| else |es| + 1
  {
    FirstWhereSnoc(es, e, Settles);
  }

  /** A tick is recorded only while neither streaming nor settling has
      happened; the first streaming event adds `-1`; nothing else changes
      the progress calls. */
  lemma {:induction false} ProgressSnoc(es: seq<Event>, e: Event, format: bool)
    ensures ExpectedProgress(es + [e], format) ==
      if StreamStart(es, format) == |es| && FirstSettle(es) == |es| && e.ProgressTick? then
        ExpectedProgress(es, format) + [e.elapsed]
      else if StreamStart(es, format) == |es| && StartsStreaming(e, format) then
        ExpectedProgress(es, format) + [-1]
      else ExpectedProgress(es, format)
  {
    var es2 := es + [e];
    var s := StreamStart(es, format);
    var f := FirstSettle(es);
    StreamStartSnoc(es, e, format);
    FirstSettleSnoc(es, e);
    var s2 := StreamStart(es2, format);
    var f2 := FirstSettle(es2);
    var m := if s < f then s else f;
    var m2 := if s2 < f2 then s2 else f2;
    var ticks := Ticks(es[..m]);
    assert ExpectedProgress(es, format) == ticks + (if s < |es| then [-1] else []);
    if m2 == |es| + 1 {
      assert es2[..m2] == es + [e];
      assert es[..m] == es;
      TextSnoc(es, e);
      assert ExpectedProgress(es2, format) == ticks + (if e.ProgressTick? then [e.elapsed] else []);
    } else {
      assert m2 == m;
      PrefixSnoc(es, e, m);
      assert ExpectedProgress(es2, format) == ticks + (if s2 < |es2| then [-1] else []);
    }
  }

  /** Extending the events never moves a first occurrence already seen. */
  lemma {:induction false} FirstWhereAppend(es: seq<Event>, more: seq<Event>, p: Event -> bool)
    ensures FirstWhere(es, p) < |es| ==> FirstWhere(es + more, p) == FirstWhere(es, p)
    ensures FirstWhere(es, p) == |es| ==> FirstWhere(es + more, p) >= |es|
  {
    var k := FirstWhere(es, p);
    var r := FirstWhere(es + more, p);
    if k < |es| {
      assert (es + more)[k] == es[k];
    }
  }

  /** Settle-once: after the first settling event, further events do not
      change the promise's value. */
  lemma {:induction false} SettlesOnce(es: seq<Event>, more: seq<Event>, seconds: nat)
    requires FirstSettle(es) < |es|
    ensures Expected(es + more, seconds) == Expected(es, seconds)
  {
    FirstWhereAppend(es, more, Settles);
    var k := FirstSettle(es);
    assert (es + more)[..k] == es[..k];
    assert (es + more)[k] == es[k];
  }

  /** The run resolves exactly when its first settling event is a close with
      code 0, and it then resolves with every stdout chunk received before
      that close, in order. Without any settling event it times out. */
  lemma {:induction false} ResolvesIffCleanClose(es: seq<Event>, seconds: nat)
    ensures var k := FirstSettle(es);
      (Expected(es, seconds).Resolved? <==> k < |es| && es[k] == Closed(Some(0))) &&
      (k < |es| && es[k] == Closed(Some(0)) ==> Expected(es, seconds) == Resolved(StdoutText(es[..k]))) &&
      (k == |es| ==> Expected(es, seconds) == Rejected(TimeoutMessage(seconds)))
  {
  }

  /** `onProgress` receives only elapsed times (never negative) and at most
      one `-1`, which comes last and is there exactly when streaming
      started. */
  lemma {:induction false} ProgressShape(es: seq<Event>, format: bool)
    ensures var p := ExpectedProgress(es, format);
      (forall i :: 0 <= i < |p| ==> p[i] >= 0 || (i == |p| - 1 && p[i] == -1)) &&
      (-1 in p <==> StreamStart(es, format) < |es|) &&
      (StreamStart(es, format) < |es| ==> p[|p| - 1] == -1)
  {
    var s := StreamStart(es, format);
    var f := FirstSettle(es);
    var t := Ticks(es[..if s < f then s else f]);
    if s < |es| {
      assert ExpectedProgress(es, format) == t + [-1];
      assert -1 !in t;
    } else {
      assert ExpectedProgress(es, format) == t;
      assert -1 !in t;
    }
  }

  /** Once streaming has started, later events add no progress calls: the
      ticks stop and `-1` is not repeated. */
  lemma {:induction false} ProgressStopsAfterStreaming(es: seq<Event>, more: seq<Event>, format: bool)
    requires StreamStart(es, format) < |es|
    ensures ExpectedProgress(es + more, format) == ExpectedProgress(es, format)
  {
    FirstWhereAppend(es, more, x => StartsStreaming(x, format));
    FirstWhereAppend(es, more, Settles);
    var s := StreamStart(es, format);
    var f := FirstSettle(es);
    var m := if s < f then s else f;
    assert (es + more)[..m] == es[..m];
  }

  /** The observable handler state: captured output and error text, whether
      the timeout and the progress interval are armed, the promise, whether
      streaming has started, and the progress calls so far. */
  datatype View = View(
    output: string, error: string, timerActive: bool, settled: Option<Outcome>,
    streaming: bool, intervalActive: bool, progress: seq<int>)

  function ViewOf(a: Attempt): View
    reads a
  {
    View(a.output, a.error, a.timerActive, a.settled, a.hasStartedStreaming, a.intervalActive, a.progress)
  }

  /** What one event does to the handler state, as the handlers of
      `runGeminiWithTimeout` do it. */
  function Step(v: View, e: Event, format: bool, seconds: nat): View {
    match e
    case StdoutData(c) =>
      v.(output := v.output + c, streaming := true, intervalActive := false,
         progress := if v.streaming then v.progress else v.progress + [-1])
    case StderrData(c) =>
      var starts := !v.streaming && NoticeStartsStreaming(c, format);
      v.(error := v.error + c, streaming := v.streaming || starts,
         intervalActive := v.intervalActive && !starts,
         progress := if starts then v.progress + [-1] else v.progress)
    case Closed(code) =>
      v.(timerActive := false, intervalActive := false,
         settled := if v.settled.None? then Some(CloseOutcome(code, v.output, v.error)) else v.settled)
    case TimerFired =>
      if v.timerActive then
        v.(timerActive := false, intervalActive := false,
           settled := if v.settled.None? then Some(Rejected(TimeoutMessage(seconds))) else v.settled)
      else v
    case SpawnFailed(m) =>
      v.(timerActive := false, intervalActive := false,
         settled := if v.settled.None? then Some(Rejected(m)) else v.settled)
    case ProgressTick(t) =>
      v.(progress := if v.intervalActive && !v.streaming then v.progress + [t] else v.progress)
  }

  /** The handler state after the events `es`, stated on the event sequence
      alone. */
  function Spec(es: seq<Event>, format: bool, seconds: nat): View {
    var n := |es|;
    var f := FirstSettle(es);
    var s := StreamStart(es, format);
    View(StdoutText(es), StderrText(es), f == n,
         if f < n then Some(OutcomeAt(es, f, seconds)) else None,
         s < n, s == n && f == n, ExpectedProgress(es, format))
  }

  /** The two descriptions agree: one more event moves the specified state
      exactly as the handlers do. */
  lemma {:induction false} SpecSnoc(es: seq<Event>, e: Event, format: bool, seconds: nat)
    ensures Spec(es + [e], format, seconds) == Step(Spec(es, format, seconds), e, format, seconds)
  {
    match e
    case StdoutData(_) => SpecSnocOutput(es, e, format, seconds);
    case StderrData(_) => SpecSnocOutput(es, e, format, seconds);
    case ProgressTick(_) => SpecSnocOutput(es, e, format, seconds);
    case Closed(_) => SpecSnocSettling(es, e, format, seconds);
    case TimerFired => SpecSnocSettling(es, e, format, seconds);
    case SpawnFailed(_) => SpecSnocSettling(es, e, format, seconds);
  }

  /** A chunk or a tick never settles the promise. */
  lemma {:induction false} SpecSnocOutput(es: seq<Event>, e: Event, format: bool, seconds: nat)
    requires !Settles(e)
    ensures Spec(es + [e], format, seconds) == Step(Spec(es, format, seconds), e, format, seconds)
  {
    StreamStartSnoc(es, e, format);
    FirstSettleSnoc(es, e);
    TextSnoc(es, e);
    ProgressSnoc(es, e, format);
    var f := FirstSettle(es);
    if f < |es| {
      OutcomeAtSnoc(es, e, f, seconds);
    }
  }

  /** Close, the timer and a spawn error settle a pending promise and
      disarm both timers; on a settled one they change nothing else. */
  lemma {:induction false} SpecSnocSettling(es: seq<Event>, e: Event, format: bool, seconds: nat)
    requires Settles(e)
    ensures Spec(es + [e], format, seconds) == Step(Spec(es, format, seconds), e, format, seconds)
  {
    if FirstSettle(es) < |es| {
      SpecSnocSettled(es, e, format, seconds);
    } else {
      SpecSnocPending(es, e, format, seconds);
    }
  }

  lemma {:induction false} SpecSnocSettled(es: seq<Event>, e: Event, format: bool, seconds: nat)
    requires Settles(e) && FirstSettle(es) < |es|
    ensures Spec(es + [e], format, seconds) == Step(Spec(es, format, seconds), e, format, seconds)
  {
    StreamStartSnoc(es, e, format);
    FirstSettleSnoc(es, e);
    TextSnoc(es, e);
    ProgressSnoc(es, e, format);
    OutcomeAtSnoc(es, e, FirstSettle(es), seconds);
  }

  lemma {:induction false} SpecSnocPending(es: seq<Event>, e: Event, format: bool, seconds: nat)
    requires Settles(e) && FirstSettle(es) == |es|
    ensures Spec(es + [e], format, seconds) == Step(Spec(es, format, seconds), e, format, seconds)
  {
    StreamStartSnoc(es, e, format);
    TextSnoc(es, e);
    ProgressSnoc(es, e, format);
    SettledBySnoc(es, e, seconds);
  }

  /** An event that settles a still pending run decides the outcome from
      what was captured before it. */
  lemma {:induction false} SettledBySnoc(es: seq<Event>, e: Event, seconds: nat)
    requires FirstSettle(es) == |es| && Settles(e)
    ensures FirstSettle(es + [e]) == |es|
    ensures OutcomeAt(es + [e], |es|, seconds) ==
      match e
      case Closed(code) => CloseOutcome(code, StdoutText(es), StderrText(es))
      case TimerFired => Rejected(TimeoutMessage(seconds))
      case SpawnFailed(m) => Rejected(m)
  {
    FirstSettleSnoc(es, e);
    assert (es + [e])[..|es|] == es;
  }

  /** The handler state agrees with the specification on the events seen so
      far. */
  predicate Tracks(a: Attempt, es: seq<Event>, format: bool, seconds: nat)
    reads a
  {
    a.Valid() && a.format == format && a.seconds == seconds &&
    ViewOf(a) == Spec(es, format, seconds)
  }

  /** Delivers one event to its handler. */
  method Deliver(a: Attempt, e: Event)
    requires a.Valid()
    modifies a
    ensures a.Valid()
    ensures ViewOf(a) == Step(old(ViewOf(a)), e, a.format, a.seconds)
  {
    match e
    case StdoutData(c) => a.OnStdout(c);
    case StderrData(c) => a.OnStderr(c);
    case Closed(code) => a.OnClose(code);
    case TimerFired => a.OnTimer();
    case SpawnFailed(m) => a.OnError(m);
    case ProgressTick(t) => a.OnTick(t);
  }

  /** Delivers the next event and keeps the handler state in step with the
      specification. */
  method Feed(a: Attempt, ghost es: seq<Event>, e: Event, format: bool, seconds: nat)
    requires Tracks(a, es, format, seconds)
    modifies a
    ensures Tracks(a, es + [e], format, seconds)
  {
    SpecSnoc(es, e, format, seconds);
    Deliver(a, e);
  }

  /** When the events run out, a promise still pending is settled by the
      timer; otherwise the handlers already hold the promise's value. */
  lemma {:induction false} SpecFinal(es: seq<Event>, format: bool, seconds: nat)
    ensures var v := Spec(es, format, seconds);
      (v.settled.Some? ==> v.settled.value == Expected(es, seconds)) &&
      (v.settled.None? ==> Expected(es, seconds) == Rejected(TimeoutMessage(seconds))) &&
      v.progress == ExpectedProgress(es, format)
  {
  }

  /** Replays the events through the handlers in order. If the events run
      out before any of them settles the promise, the still armed timer
      fires. The result is the promise's value and the progress calls. */
  method RunAttempt(events: seq<Event>, seconds: nat, format: bool) returns (o: Outcome, progress: seq<int>)
    ensures o == Expected(events, seconds)
    ensures progress == ExpectedProgress(events, format)
  {
    var a := new Attempt(format, seconds);
    var i := 0;
    assert events[..0] == [];
    while i < |events|
      invariant 0 <= i <= |events|
      invariant Tracks(a, events[..i], format, seconds)
    {
      TakeSnoc(events, i);
      Feed(a, events[..i], events[i], format, seconds);
      i := i + 1;
    }
    assert events[..i] == events;
    SpecFinal(events, format, seconds);
    if a.settled.None? {
      a.OnTimer();
    }
    o := a.settled.value;
    progress := a.progress;
  }
}
