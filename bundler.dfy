/** Building the Gemini prompt from a bundle of the codebase
    (`processWithCode2Prompt` and `hasCodebaseContent` in
    src/commands/sync.ts). The bundler (code2prompt), the `@path`
    extractor and the `path` functions are outside the model and come in
    as function parameters. */
module Bundler {
  import opened Text
  import opened Wrappers

  /** What `extractPathsFromQuery` returns. */
  datatype Extracted = Extracted(paths: seq<string>, cleanQuery: string)

  /** `path.resolve`, `path.dirname` and `path.basename`. */
  datatype PathOps = PathOps(resolve: string -> string, dirname: string -> string, basename: string -> string)

  /** The options handed to the bundler. Output format `json`, token
      counting and the `cl100k` encoding are fixed and not represented. */
  datatype BundleOptions = BundleOptions(
    includes: seq<string>, excludes: seq<string>, lineNumbers: bool, template: Option<string>)

  /** What the bundler returns; `tokenCount` may be missing. */
  datatype Bundle = Bundle(output: string, tokenCount: Option<nat>)

  /** The caller's options; `None` stands for an option left undefined. */
  datatype SyncOptions = SyncOptions(
    includePatterns: Option<seq<string>>, excludePatterns: Option<seq<string>>,
    lineNumbers: bool, template: Option<string>)

  /** The bundler: a root directory and options give a bundle or an error. */
  type BundleFn = (string, BundleOptions) -> Result<Bundle>

  datatype Processed = Processed(prompt: string, tempFile: Option<string>, tokenCount: Option<nat>)

  /** The result together with the bundler calls made, in order. */
  datatype Run = Run(result: Result<Processed>, calls: seq<(string, BundleOptions)>)

  const MaxTokens: nat := 15000
  /** `Math.floor(maxTokens * 4)` UTF-16 code units are kept when
      truncating. */
  const TruncateUnits: nat := 60000

  const DefaultExclusions: seq<string> := [
    "node_modules/**", "venv/**", "env/**", ".venv/**", "vendor/**", "target/**", "pkg/**", "packages/**",
    "dist/**", "build/**", "out/**", "bin/**", "lib/**", "release/**", ".next/**", ".nuxt/**", "_site/**",
    "public/assets/**",
    ".vscode/**", ".idea/**", "*.swp", "*.swo", "*~", ".DS_Store", "Thumbs.db",
    ".git/**", ".svn/**", ".hg/**",
    "*.log", "logs/**", "tmp/**", "temp/**", ".tmp/**",
    ".env*", ".secret*", "config/secrets/**",
    ".cache/**", "cache/**", ".parcel-cache/**", ".webpack/**", ".rollup.cache/**",
    "coverage/**", ".nyc_output/**", "test-results/**",
    "_book/**", "docs/_build/**", "site/**",
    "*.pyc", "__pycache__/**", ".pytest_cache/**", "Cargo.lock", "package-lock.json", "yarn.lock",
    "pnpm-lock.yaml", "composer.lock", "Gemfile.lock"
  ]

  const AggressiveExtras: seq<string> := [
    "*.min.js", "*.min.css", "*.bundle.js", "*.chunk.js", "static/**", "assets/**", "public/**",
    "docs/**", "examples/**", "test/**", "tests/**", "__tests__/**", "spec/**", "*.spec.ts",
    "*.spec.js", "*.test.ts", "*.test.js", "*.d.ts", "types/**", "@types/**"
  ]

  const ContextHeading: string := "\n\n# Codebase Context"
  const TruncationNote: string :=
    "\n\n[Note: Output truncated due to size limits. Use specific file paths for detailed analysis.]"

  // ---------------------------------------------------------------------
  // Filtering.

  /** `xs.filter(p)`: the elements satisfying `p`, in order. */
  function Filter(xs: seq<string>, p: string -> bool): (r: seq<string>)
    ensures |r| <= |xs|
    ensures forall y :: y in r ==> y in xs && p(y)
    ensures forall y :: y in xs && p(y) ==> y in r
    decreases |xs|
  {
    if xs == [] then []
    else
      assert xs == [xs[0]] + xs[1..];
      (if p(xs[0]) then [xs[0]] else []) + Filter(xs[1..], p)
  }

  /** The first element of a filtered list is the first element that
      satisfies the test. */
  lemma {:induction false} FilterHead(xs: seq<string>, p: string -> bool, j: nat)
    requires j < |xs| && p(xs[j])
    requires forall k :: 0 <= k < j ==> !p(xs[k])
    ensures Filter(xs, p) != [] && Filter(xs, p)[0] == xs[j]
    decreases j
  {
    if j > 0 {
      FilterHead(xs[1..], p, j - 1);
    }
  }

  lemma {:induction false} FilterNone(xs: seq<string>, p: string -> bool)
    requires forall k :: 0 <= k < |xs| ==> !p(xs[k])
    ensures Filter(xs, p) == []
    decreases |xs|
  {
    if xs != [] {
      FilterNone(xs[1..], p);
    }
  }

  function Map(xs: seq<string>, f: string -> string): (r: seq<string>)
    ensures |r| == |xs| && forall k :: 0 <= k < |xs| ==> r[k] == f(xs[k])
    decreases |xs|
  {
    if xs == [] then [] else [f(xs[0])] + Map(xs[1..], f)
  }

  // ---------------------------------------------------------------------
  // Choosing what to bundle, in `processWithCode2Prompt`.

  /** An empty path list means the current directory. */
  function TargetPaths(paths: seq<string>): seq<string> {
    if paths == [] then ["."] else paths
  }

  /** `p.endsWith('/') || !p.includes('.')`. */
  predicate IsDirLike(p: string) {
    EndsWith(p, "/") || '.' !in p
  }

  /** `p.includes('.') && !p.endsWith('/') && p !== '.'`. */
  predicate IsFileLike(p: string) {
    '.' in p && !EndsWith(p, "/") && p != "."
  }

  function PrimaryPath(targets: seq<string>, cwd: string, ops: PathOps): string {
    var dirs := Filter(targets, IsDirLike);
    if dirs != [] then ops.resolve(dirs[0])
    else if targets != [] && targets[0] != "." then ops.dirname(ops.resolve(targets[0]))
    else cwd
  }

  /** The basenames of the file-like targets, empty ones dropped. */
  function FileIncludes(targets: seq<string>, ops: PathOps): seq<string> {
    Filter(Map(Filter(targets, IsFileLike), ops.basename), f => |f| > 0)
  }

  function FirstOptions(opts: SyncOptions, targets: seq<string>, ops: PathOps): BundleOptions {
    var inc := match opts.includePatterns case Some(l) => l case None => [];
    var exc := match opts.excludePatterns case Some(l) => l case None => DefaultExclusions;
    BundleOptions(inc + FileIncludes(targets, ops), exc, opts.lineNumbers, opts.template)
  }

  function Aggressive(o: BundleOptions): BundleOptions {
    o.(excludes := o.excludes + AggressiveExtras)
  }

  /** `result.tokenCount && result.tokenCount > maxTokens`. */
  predicate OverBudget(b: Bundle) {
    b.tokenCount.Some? && b.tokenCount.value > MaxTokens
  }

  function Prompt(cleanQuery: string, body: string): string {
    cleanQuery + ContextHeading + "\n\n" + body
  }

  /** The number of UTF-16 code units a JavaScript string spends on `c`:
      two for a character outside the Basic Multilingual Plane. */
  function Units(c: char): nat {
    if c as int >= 0x10000 then 2 else 1
  }

  /** The JavaScript `length` of a text. */
  function Utf16Length(s: string): nat
    decreases |s|
  {
    if s == [] then 0 else Units(s[0]) + Utf16Length(s[1..])
  }

  /** `s.substring(0, n)`, which counts UTF-16 code units: the longest prefix
      of `s` that fits in `n` of them. */
  function TakeUnits(s: string, n: nat): (r: string)
    ensures |r| <= |s| && r == s[..|r|]
    ensures Utf16Length(r) <= n
    ensures |r| < |s| ==> Utf16Length(r) + Units(s[|r|]) > n
    decreases |s|
  {
    if s == [] || Units(s[0]) > n then []
    else
      var rest := TakeUnits(s[1..], n - Units(s[0]));
      var r := [s[0]] + rest;
      assert r[1..] == rest;
      assert s[..|r|] == [s[0]] + s[1..][..|rest|];
      assert |r| < |s| ==> s[|r|] == s[1..][|rest|];
      r
  }

  /** A text that fits is kept whole. */
  lemma {:induction false} TakeUnitsAll(s: string, n: nat)
    requires Utf16Length(s) <= n
    ensures TakeUnits(s, n) == s
    decreases |s|
  {
    if s != [] {
      TakeUnitsAll(s[1..], n - Units(s[0]));
      assert s == [s[0]] + s[1..];
    }
  }

  /** On text inside the Basic Multilingual Plane code units are characters,
      and the first `n` of them are kept. */
  lemma {:induction false} TakeUnitsBmp(s: string, n: nat)
    requires forall i :: 0 <= i < |s| ==> Units(s[i]) == 1
    ensures TakeUnits(s, n) == s[..if |s| < n then |s| else n]
    decreases |s|
  {
    if s != [] && n > 0 {
      assert Units(s[0]) == 1;
      TakeUnitsBmp(s[1..], n - 1);
      assert s[..if |s| < n then |s| else n] == [s[0]] + s[1..][..if |s| - 1 < n - 1 then |s| - 1 else n - 1];
    }
  }

  function TruncatedPrompt(cleanQuery: string, output: string): string {
    cleanQuery + ContextHeading + (" (Truncated)\n\n" + TakeUnits(output, TruncateUnits) + TruncationNote)
  }

  /** `processWithCode2Prompt(query, options)`. A failing bundler call makes
      the whole step fail. */
  function Process(query: string, opts: SyncOptions, cwd: string, ops: PathOps,
                   extract: string -> Extracted, bundle: BundleFn): Run
  {
    var ex := extract(query);
    var targets := TargetPaths(ex.paths);
    var root := PrimaryPath(targets, cwd, ops);
    var first := FirstOptions(opts, targets, ops);
    match bundle(root, first)
    case Failure(e) => Run(Failure(e), [(root, first)])
    case Success(b1) =>
      if !OverBudget(b1) then
        Run(Success(Processed(Prompt(ex.cleanQuery, b1.output), None, b1.tokenCount)), [(root, first)])
      else
        var second := Aggressive(first);
        match bundle(root, second)
        case Failure(e) => Run(Failure(e), [(root, first), (root, second)])
        case Success(b2) =>
          if OverBudget(b2) then
            Run(Success(Processed(TruncatedPrompt(ex.cleanQuery, b2.output), None, Some(MaxTokens))),
                [(root, first), (root, second)])
          else
            Run(Success(Processed(Prompt(ex.cleanQuery, b2.output), None, b2.tokenCount)),
                [(root, first), (root, second)])
  }

  // ---------------------------------------------------------------------
  // Properties.

  /** With no paths in the query the bundle is rooted at the working
      directory. */
  lemma {:induction false} NoPathsUsesCwd(cwd: string, ops: PathOps)
    ensures TargetPaths([]) == ["."]
    ensures PrimaryPath(TargetPaths([]), cwd, ops) == cwd
  {
    assert !IsDirLike(".") by { var d := "."; assert d[0] == '.'; }
    FilterNone(["."], IsDirLike);
  }

  /** The root is the first target that ends in '/' or has no '.';
      failing that, the directory of the first target unless it is '.';
      failing that, the working directory. */
  lemma {:induction false} PrimaryPathChoice(targets: seq<string>, cwd: string, ops: PathOps, j: nat)
    requires j <= |targets|
    requires j < |targets| ==> IsDirLike(targets[j])
    requires forall k :: 0 <= k < j ==> !IsDirLike(targets[k])
    ensures j < |targets| ==> PrimaryPath(targets, cwd, ops) == ops.resolve(targets[j])
    ensures j == |targets| && targets != [] && targets[0] != "." ==>
      PrimaryPath(targets, cwd, ops) == ops.dirname(ops.resolve(targets[0]))
    ensures j == |targets| && (targets == [] || targets[0] == ".") ==> PrimaryPath(targets, cwd, ops) == cwd
  {
    if j < |targets| {
      FilterHead(targets, IsDirLike, j);
    } else {
      FilterNone(targets, IsDirLike);
    }
  }

  /** The caller's exclude list is used whenever one is given, even an
      empty one; the defaults only when it is undefined. Includes are the
      caller's (or none) followed by the non-empty basenames of the
      file-like targets. */
  lemma {:induction false} OptionsChoice(opts: SyncOptions, targets: seq<string>, ops: PathOps)
    ensures var o := FirstOptions(opts, targets, ops);
      (opts.excludePatterns.Some? ==> o.excludes == opts.excludePatterns.value) &&
      (opts.excludePatterns.None? ==> o.excludes == DefaultExclusions) &&
      (opts.includePatterns.Some? ==> o.includes == opts.includePatterns.value + FileIncludes(targets, ops)) &&
      (opts.includePatterns.None? ==> o.includes == FileIncludes(targets, ops)) &&
      o.lineNumbers == opts.lineNumbers && o.template == opts.template
  {
    assert [] + FileIncludes(targets, ops) == FileIncludes(targets, ops);
  }

  /** Every file include is the non-empty basename of a file-like target,
      and every such basename is included. */
  lemma {:induction false} FileIncludesAre(targets: seq<string>, ops: PathOps)
    ensures forall f :: f in FileIncludes(targets, ops) ==>
      |f| > 0 && exists t :: t in targets && IsFileLike(t) && f == ops.basename(t)
    ensures forall t :: t in targets && IsFileLike(t) && |ops.basename(t)| > 0 ==>
      ops.basename(t) in FileIncludes(targets, ops)
  {
    var files := Filter(targets, IsFileLike);
    var names := Map(files, ops.basename);
    forall f | f in FileIncludes(targets, ops)
      ensures |f| > 0 && exists t :: t in targets && IsFileLike(t) && f == ops.basename(t)
    {
      var k :| 0 <= k < |names| && names[k] == f;
      assert files[k] in files;
    }
    forall t | t in targets && IsFileLike(t) && |ops.basename(t)| > 0
      ensures ops.basename(t) in FileIncludes(targets, ops)
    {
      assert t in files;
      var k :| 0 <= k < |files| && files[k] == t;
      assert names[k] == ops.basename(t);
    }
  }

  /** The bundler is called a second time exactly when the first call
      succeeds with a token count above 15000; the second call has the same
      root and options, with the aggressive exclusions appended. */
  lemma {:induction false} SecondCallOnlyOverBudget(query: string, opts: SyncOptions, cwd: string, ops: PathOps,
                                                    extract: string -> Extracted, bundle: BundleFn)
    ensures var run := Process(query, opts, cwd, ops, extract, bundle);
      var targets := TargetPaths(extract(query).paths);
      var root := PrimaryPath(targets, cwd, ops);
      var first := FirstOptions(opts, targets, ops);
      run.calls[0] == (root, first) &&
      (|run.calls| == 2 <==> bundle(root, first).Success? && OverBudget(bundle(root, first).value)) &&
      (|run.calls| == 2 ==> run.calls[1] == (root, first.(excludes := first.excludes + AggressiveExtras))) &&
      1 <= |run.calls| <= 2
  {
  }

  /** If the second bundle is over budget too, the prompt carries its first
      60000 UTF-16 code units under a "(Truncated)" heading followed by the note,
      and the reported count is 15000. */
  lemma {:induction false} TruncatesWhenStillOver(query: string, opts: SyncOptions, cwd: string, ops: PathOps,
                                                  extract: string -> Extracted, bundle: BundleFn)
    requires var targets := TargetPaths(extract(query).paths);
      var root := PrimaryPath(targets, cwd, ops);
      var first := FirstOptions(opts, targets, ops);
      bundle(root, first).Success? && OverBudget(bundle(root, first).value) &&
      bundle(root, Aggressive(first)).Success? && OverBudget(bundle(root, Aggressive(first)).value)
    ensures var run := Process(query, opts, cwd, ops, extract, bundle);
      var targets := TargetPaths(extract(query).paths);
      var b2 := bundle(PrimaryPath(targets, cwd, ops), Aggressive(FirstOptions(opts, targets, ops))).value;
      run.result == Success(Processed(
        extract(query).cleanQuery + ContextHeading + (" (Truncated)\n\n" + TakeUnits(b2.output, 60000) + TruncationNote),
        None, Some(15000)))
  {
  }

  /** Every prompt begins with the cleaned query and the context heading, and
      no temporary file is ever used. Outside the truncated case, dropping
      the cleaned query and the heading gives back the bundler output
      unchanged. */
  lemma {:induction false} PromptRoundTrip(query: string, opts: SyncOptions, cwd: string, ops: PathOps,
                                           extract: string -> Extracted, bundle: BundleFn)
    requires Process(query, opts, cwd, ops, extract, bundle).result.Success?
    ensures var run := Process(query, opts, cwd, ops, extract, bundle);
      var p := run.result.value;
      var head := extract(query).cleanQuery + ContextHeading;
      p.tempFile == None && StartsWith(p.prompt, head)
    ensures var run := Process(query, opts, cwd, ops, extract, bundle);
      var p := run.result.value;
      var targets := TargetPaths(extract(query).paths);
      var root := PrimaryPath(targets, cwd, ops);
      var first := FirstOptions(opts, targets, ops);
      var b := if |run.calls| == 1 then bundle(root, first).value else bundle(root, Aggressive(first)).value;
      var pre := extract(query).cleanQuery + ContextHeading + "\n\n";
      p.tokenCount != Some(MaxTokens) || !OverBudget(b) ==>
        StartsWith(p.prompt, pre) && p.prompt[|pre|..] == b.output
  {
    var run := Process(query, opts, cwd, ops, extract, bundle);
    var p := run.result.value;
    var clean := extract(query).cleanQuery;
    var head := clean + ContextHeading;
    var pre := head + "\n\n";
    var targets := TargetPaths(extract(query).paths);
    var root := PrimaryPath(targets, cwd, ops);
    var first := FirstOptions(opts, targets, ops);
    var b := if |run.calls| == 1 then bundle(root, first).value else bundle(root, Aggressive(first)).value;
    if p.prompt == Prompt(clean, b.output) {
      PromptShape(clean, b.output);
    } else {
      TruncatedShape(clean, bundle(root, Aggressive(first)).value.output);
    }
  }

  lemma {:induction false} PromptShape(clean: string, body: string)
    ensures var pre := clean + ContextHeading + "\n\n";
      StartsWith(Prompt(clean, body), clean + ContextHeading) &&
      StartsWith(Prompt(clean, body), pre) && Prompt(clean, body)[|pre|..] == body
  {
    var head := clean + ContextHeading;
    var p := Prompt(clean, body);
    assert p == head + ("\n\n" + body);
    assert p[..|head|] == head;
    assert p == (head + "\n\n") + body;
  }

  lemma {:induction false} TruncatedShape(clean: string, output: string)
    ensures StartsWith(TruncatedPrompt(clean, output), clean + ContextHeading)
  {
    var head := clean + ContextHeading;
    var kept := TakeUnits(output, TruncateUnits);
    var tail := " (Truncated)\n\n" + kept + TruncationNote;
    assert TruncatedPrompt(clean, output) == head + tail;
    StartsWithAppend(head, tail);
  }

  // ---------------------------------------------------------------------
  // `hasCodebaseContent`.

  const AnalysisKeywords: seq<string> := [
    "analyze", "architecture", "structure", "codebase", "project", "code",
    "patterns", "security", "audit", "review", "overview", "summary", "files"
  ]

  predicate HasAnalysisKeyword(query: string) {
    exists k :: 0 <= k < |AnalysisKeywords| && Contains(Lower(query), AnalysisKeywords[k])
  }

  /** `bundlerFound` stands for `findCode2PromptPath() !== null`. */
  function HasCodebaseContent(query: string, extract: string -> Extracted, bundlerFound: bool): (r: bool)
    ensures r <==> bundlerFound && (extract(query).paths != [] || HasAnalysisKeyword(query))
  {
    if |extract(query).paths| > 0 then bundlerFound
    else if HasAnalysisKeyword(query) then bundlerFound
    else false
  }
}
