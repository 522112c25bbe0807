/** The `sync` command (`sync` in src/commands/sync.ts): validate the
    query, prepare the prompt (bundled by code2prompt when asked for and
    possible, otherwise with `@path` references made absolute), then run
    the candidate models through the fallback loop. */
module SyncCommand {
  import opened Text
  import opened Wrappers
  import opened PathRewrite
  import opened ModelChain
  import opened Executor
  import opened Bundler
  import opened Fallback

  /** The command-line options of one `sync` call. `model` and `timeout`
      are "" when not given; `timeout` is a decimal digit string. */
  datatype Request = Request(
    query: string, model: string, timeout: string,
    useBundler: bool, format: bool, bundling: SyncOptions)

  /** The configuration values `sync` reads. */
  datatype Settings = Settings(model: string, timeout: nat)

  /** The outside world `sync` depends on: whether the Gemini and code2prompt
      binaries are found, the working directory, the `@path` extractor, the
      path functions, the bundler and the Gemini process. */
  datatype World = World(
    geminiFound: bool, bundlerFound: bool, cwd: string, ops: PathOps,
    extract: string -> Extracted, bundle: BundleFn, backend: Backend)

  datatype SyncResult =
    | InvalidQuery
    | GeminiMissing
    | EmptyPrompt
    | Ran(prompt: string, verdict: Verdict, tried: seq<string>)

  /** `parseInt(options.timeout || config.timeout.toString() || '60')` in
      seconds (the multiplication by 1000 into milliseconds is dropped, as
      the executor counts seconds). The third alternative is never reached:
      a number's decimal text is never empty. */
  function TimeoutSeconds(option: string, configured: nat): (r: nat)
    requires AllDigits(option)
    ensures option == "" ==> r == configured
  {
    if option != "" then DigitsValue(option) else DigitsValue(NatToString(configured))
  }

  /** A timeout given on the command line wins over the configured one. */
  lemma {:induction false} TimeoutOptionWins(n: nat, configured: nat)
    ensures AllDigits(NatToString(n)) && TimeoutSeconds(NatToString(n), configured) == n
  {
  }

  /** Whether the bundled path is taken. */
  predicate UsesBundler(req: Request, w: World) {
    req.useBundler && HasCodebaseContent(req.query, w.extract, w.bundlerFound)
  }

  /** The prompt sent to Gemini: the bundled prompt when the bundled path is
      taken and succeeds, otherwise the query with `@path` references made
      absolute against the working directory. */
  function PreparedQuery(req: Request, w: World): string {
    if UsesBundler(req, w) then
      match Process(req.query, req.bundling, w.cwd, w.ops, w.extract, w.bundle).result
      case Success(p) => p.prompt
      case Failure(_) => ConvertPaths(req.query, w.cwd)
    else ConvertPaths(req.query, w.cwd)
  }

  /** A bundler failure falls back to the path-rewritten query; a bundled
      prompt begins with the cleaned query and the context heading. */
  lemma {:induction false} PreparedQueryCases(req: Request, w: World)
    ensures var run := Process(req.query, req.bundling, w.cwd, w.ops, w.extract, w.bundle);
      (!UsesBundler(req, w) || run.result.Failure?) ==> PreparedQuery(req, w) == ConvertPaths(req.query, w.cwd)
    ensures var run := Process(req.query, req.bundling, w.cwd, w.ops, w.extract, w.bundle);
      UsesBundler(req, w) && run.result.Success? ==>
        StartsWith(PreparedQuery(req, w), w.extract(req.query).cleanQuery + ContextHeading)
  {
    var run := Process(req.query, req.bundling, w.cwd, w.ops, w.extract, w.bundle);
    if UsesBundler(req, w) && run.result.Success? {
      PromptRoundTrip(req.query, req.bundling, w.cwd, w.ops, w.extract, w.bundle);
    }
  }

  /** The prepared query is never empty for a non-empty query, so the
      "failed to process" exit cannot be reached: a bundled prompt begins
      with the context heading, and rewriting keeps the first character. */
  lemma {:induction false} PreparedNonEmpty(req: Request, w: World)
    requires req.query != ""
    ensures PreparedQuery(req, w) != ""
  {
    PreparedQueryCases(req, w);
    var run := Process(req.query, req.bundling, w.cwd, w.ops, w.extract, w.bundle);
    if UsesBundler(req, w) && run.result.Success? {
      var h := w.extract(req.query).cleanQuery + ContextHeading;
      assert |h| > 0;
    } else {
      ConvertKeepsFirst(req.query, w.cwd);
    }
  }

  /** `sync(query, options)`: an empty query and a missing Gemini binary
      end the command before anything runs; otherwise the prepared prompt
      goes through the fallback loop over the candidate chain. */
  method Sync(req: Request, settings: Settings, w: World) returns (r: SyncResult)
    requires AllDigits(req.timeout)
    ensures req.query == "" ==> r == InvalidQuery
    ensures req.query != "" && !w.geminiFound ==> r == GeminiMissing
    ensures req.query != "" && w.geminiFound && PreparedQuery(req, w) == "" ==> r == EmptyPrompt
    ensures req.query != "" && w.geminiFound && PreparedQuery(req, w) != "" ==>
      var prompt := PreparedQuery(req, w);
      var chain := Chain(req.model, settings.model);
      var seconds := TimeoutSeconds(req.timeout, settings.timeout);
      r.Ran? && r.prompt == prompt &&
      (|r.tried|, r.verdict) == Decide(chain, Outcomes(w.backend, chain, prompt, seconds), 0)
  {
    if req.query == "" {
      return InvalidQuery;
    }
    if !w.geminiFound {
      return GeminiMissing;
    }
    var prompt := PreparedQuery(req, w);
    if prompt == "" {
      return EmptyPrompt;
    }
    var seconds := TimeoutSeconds(req.timeout, settings.timeout);
    var chain := Chain(req.model, settings.model);
    ChainProperties(req.model, settings.model);
    var verdict, tried := RunFallback(chain, prompt, seconds, req.format, w.backend);
    r := Ran(prompt, verdict, tried);
  }
}
