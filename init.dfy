/** `cg init` (src/commands/init.ts): create the configuration file if it
    is missing, add the Claude-Gemini block to CLAUDE.md (or create the
    file), and add the configuration directory to .gitignore. The file
    system is a map from path to content. */
module Init {
  import opened Text
  import opened Wrappers
  import opened Inject

  /** The lines of the CLAUDE.md text written by `init`. */
  const TemplateTitle: string := "# Using " + Marker + " CLI"

  const TemplateLines: seq<string> := [TemplateTitle] + TemplateBody

  const TemplateBody: seq<string> := [
    "",
    "This project uses the claude-gemini CLI for large codebase analysis. When analyzing files that exceed my context limits, I will automatically use this tool.",
    "",
    "## Quick Reference",
    "",
    "```bash",
    "# Analyze files/directories",
    "claude-gemini \"@src/ @lib/ Find all API endpoints\"",
    "",
    "# Short alias",
    "cg \"@src/ Analyze authentication implementation\"",
    "",
    "# With ripgrep pre-filtering",
    "cg -r \"@src/ Find all useState hooks\"",
    "```",
    "",
    "## Important for Claude",
    "",
    "When I detect that a task requires analyzing large portions of the codebase, I MUST:",
    "1. Use `claude-gemini` or `cg` command (NOT direct gemini)",
    "2. Wait for \"✅ Analysis complete!\" message",
    "3. Use the comprehensive results to answer your question",
    "4. NOT proceed with limited analysis while waiting",
    "",
    "The tool is globally installed and available in all your projects.",
    ""
  ]

  const Template: string := Join(TemplateLines, '\n')

  lemma {:induction false} TemplateHasMarker()
    ensures Contains(Template, Marker)
  {
    ContainsAt(Marker, Marker, 0);
    ContainsInLeft(Marker, " CLI", Marker);
    assert TemplateTitle == "# Using " + (Marker + " CLI");
    ContainsInRight("# Using ", Marker + " CLI", Marker);
    assert TemplateLines[0] == TemplateTitle;
    JoinContainsPart(TemplateLines, '\n', 0, Marker);
  }

  // ---------------------------------------------------------------------
  // Where the block goes in an existing CLAUDE.md (`injectIntoClaudeMd`).

  /** `/^#\s+(Tools|Analysis|Commands|Development)/i`: a level-one heading
      (exactly one '#') naming one of the sections. */
  predicate IsSectionTitle(line: string) {
    |line| >= 2 && line[0] == '#' && IsSpace(line[1]) && StartsWithSectionName(TrimStart(line[1..]))
  }

  /** `line.startsWith('# ')`. */
  predicate IsTitle(line: string) {
    StartsWith(line, "# ")
  }

  /** The first `'# '` line after the first line. */
  function LaterTitle(lines: seq<string>): Option<nat> {
    if lines == [] then None else FindFirst(lines, IsTitle, 1)
  }

  /** `injectIndex` after both scans of `injectIntoClaudeMd`: before the first section title; or
      else after the first title that is not the first line; or else 2. */
  function Placement(lines: seq<string>): nat {
    match FindFirst(lines, IsSectionTitle, 0)
    case Some(i) => i
    case None =>
      match LaterTitle(lines)
      case Some(i) => i + 1
      case None => 2
  }

  /** `lines.splice(k, 0, ...items)`: an index past the end means the end. */
  function Splice(lines: seq<string>, k: nat, items: seq<string>): (r: seq<string>)
    ensures var c := if k <= |lines| then k else |lines|;
      |r| == |lines| + |items| && r[..c] == lines[..c] && r[c..c + |items|] == items &&
      r[c + |items|..] == lines[c..]
  {
    var c := if k <= |lines| then k else |lines|;
    var r := lines[..c] + items + lines[c..];
    assert r[..c] == lines[..c];
    assert r[c..c + |items|] == items;
    assert r[c + |items|..] == lines[c..];
    r
  }

  /** The lines of CLAUDE.md with a blank line, `block` and a blank line
      spliced in at the placement. */
  function Spliced(lines: seq<string>, block: string): seq<string> {
    Splice(lines, Placement(lines), ["", block, ""])
  }

  /** `injectIntoClaudeMd`: two scans for the insertion index, then the splice. */
  method SpliceBlock(lines: seq<string>, block: string) returns (out: seq<string>)
    ensures out == Spliced(lines, block)
  {
    var injectIndex: int := -1;
    for i := 0 to |lines|
      invariant injectIndex == -1
      invariant FindFirst(lines, IsSectionTitle, i) == FindFirst(lines, IsSectionTitle, 0)
    {
      if IsSectionTitle(lines[i]) {
        injectIndex := i;
        break;
      }
    }
    if injectIndex == -1 {
      for i := 0 to |lines|
        invariant injectIndex == -1
        invariant i > 0 ==> FindFirst(lines, IsTitle, i) == LaterTitle(lines)
      {
        if IsTitle(lines[i]) && i > 0 {
          injectIndex := i + 1;
          break;
        }
      }
      if injectIndex == -1 {
        injectIndex := 2;
      }
    }
    var c := if injectIndex <= |lines| then injectIndex else |lines|;
    out := lines[..c] + ["", block, ""] + lines[c..];
  }

  /** The block goes right before the first section title. */
  lemma {:induction false} SplicedBeforeSection(lines: seq<string>, block: string, i: nat)
    requires i < |lines| && IsSectionTitle(lines[i]) && forall k :: 0 <= k < i ==> !IsSectionTitle(lines[k])
    ensures var out := Spliced(lines, block);
      out[..i] == lines[..i] && out[i..i + 3] == ["", block, ""] && out[i + 3..] == lines[i..]
  {
    FindFirstIs(lines, IsSectionTitle, 0, i);
  }

  /** With no section title, the block goes right after the first `'# '`
      line other than the first line. */
  lemma {:induction false} SplicedAfterTitle(lines: seq<string>, block: string, i: nat)
    requires forall k :: 0 <= k < |lines| ==> !IsSectionTitle(lines[k])
    requires 0 < i < |lines| && IsTitle(lines[i]) && forall k :: 1 <= k < i ==> !IsTitle(lines[k])
    ensures var out := Spliced(lines, block);
      out[..i + 1] == lines[..i + 1] && out[i + 1..i + 4] == ["", block, ""] && out[i + 4..] == lines[i + 1..]
  {
    FindFirstNone(lines, IsSectionTitle, 0);
    FindFirstIs(lines, IsTitle, 1, i);
  }

  /** With neither, the block goes after the second line, or at the end of a
      shorter file. */
  lemma {:induction false} SplicedByDefault(lines: seq<string>, block: string)
    requires forall k :: 0 <= k < |lines| ==> !IsSectionTitle(lines[k])
    requires forall k :: 1 <= k < |lines| ==> !IsTitle(lines[k])
    ensures var c := if |lines| < 2 then |lines| else 2;
      var out := Spliced(lines, block);
      out[..c] == lines[..c] && out[c..c + 3] == ["", block, ""] && out[c + 3..] == lines[c..]
  {
    FindFirstNone(lines, IsSectionTitle, 0);
    if lines != [] {
      FindFirstNone(lines, IsTitle, 1);
    }
  }

  /** Exactly three lines are added and the original ones keep their
      order. */
  lemma {:induction false} SplicedKeepsLines(lines: seq<string>, block: string)
    ensures var out := Spliced(lines, block);
      var c := if Placement(lines) <= |lines| then Placement(lines) else |lines|;
      |out| == |lines| + 3 && out[c + 1] == block && out[..c] + out[c + 3..] == lines
  {
    var c := if Placement(lines) <= |lines| then Placement(lines) else |lines|;
    var out := Spliced(lines, block);
    SpliceKeeps(lines, Placement(lines), ["", block, ""]);
    assert out[c + 1] == out[c..c + 3][1];
  }

  lemma {:induction false} SpliceKeeps(lines: seq<string>, k: nat, items: seq<string>)
    ensures var r := Splice(lines, k, items);
      var c := if k <= |lines| then k else |lines|;
      r[..c] + r[c + |items|..] == lines
  {
    var c := if k <= |lines| then k else |lines|;
    assert lines[..c] + lines[c..] == lines;
  }

  /** The new CLAUDE.md text with `template` spliced in, or `None` when the
      marker is already there and nothing is written. */
  function ClaudeMdUpdate(content: string, template: string): Option<string> {
    if HasMarker(content) then None else Some(Join(Spliced(Split(content, '\n'), template), '\n'))
  }

  /** `injectIntoClaudeMd(filePath)` on the file's content. */
  method InjectIntoClaudeMd(content: string, template: string) returns (r: Option<string>)
    ensures HasMarker(content) ==> r == None
    ensures !HasMarker(content) ==> r == Some(Join(Spliced(Split(content, '\n'), template), '\n'))
  {
    if HasMarker(content) {
      return None;
    }
    var lines := SpliceBlock(Split(content, '\n'), template);
    r := Some(Join(lines, '\n'));
  }

  /** An updated CLAUDE.md carries the marker, so a second update writes
      nothing. */
  lemma {:induction false} UpdateIdempotent(content: string, template: string)
    requires !HasMarker(content) && Contains(template, Marker)
    ensures ClaudeMdUpdate(content, template).Some? && HasMarker(ClaudeMdUpdate(content, template).value)
    ensures ClaudeMdUpdate(ClaudeMdUpdate(content, template).value, template) == None
  {
    SplicedHasMarker(Split(content, '\n'), template);
  }

  lemma {:induction false} SplicedHasMarker(lines: seq<string>, block: string)
    requires Contains(block, Marker)
    ensures HasMarker(Join(Spliced(lines, block), '\n'))
  {
    var c := if Placement(lines) <= |lines| then Placement(lines) else |lines|;
    SplicedKeepsLines(lines, block);
    JoinContainsPart(Spliced(lines, block), '\n', c + 1, Marker);
  }

  // ---------------------------------------------------------------------
  // The command (`init`).

  /** What `fs.writeJson` writes for the default configuration. */
  const DefaultConfigText: string :=
    "{\n  \"timeout\": 300,\n  \"model\": \"gemini-2.0-flash-exp\",\n  \"ripgrep\": true,\n  \"format\": true\n}\n"

  const ConfigDirEntry: string := ".claude-gemini/"

  /** The text appended to .gitignore. */
  const GitignoreEntry: string := "\n# " + Marker + "\n" + ConfigDirEntry + "\n"

  lemma {:induction false} EntryHasConfigDir(gitignore: string)
    ensures Contains(gitignore + GitignoreEntry, ConfigDirEntry)
  {
    ContainsAt(ConfigDirEntry, ConfigDirEntry, 0);
    ContainsInLeft(ConfigDirEntry, "\n", ConfigDirEntry);
    ContainsInRight("\n# " + Marker + "\n", ConfigDirEntry + "\n", ConfigDirEntry);
    assert GitignoreEntry == ("\n# " + Marker + "\n") + (ConfigDirEntry + "\n");
    ContainsInRight(gitignore, GitignoreEntry, ConfigDirEntry);
  }

  /** The files `init` looks at. The two configuration paths stand for
      `$HOME/.claude-gemini/config.json` and `./.claude-gemini/config.json`. */
  datatype InitPaths = InitPaths(globalConfig: string, localConfig: string, claudeMd: string, gitignore: string)

  function ConfigPath(paths: InitPaths, global: bool): string {
    if global then paths.globalConfig else paths.localConfig
  }

  /** CLAUDE.md is handled with `--inject` or without `--global`. */
  predicate TouchesClaudeMd(global: bool, inject: bool) {
    inject || !global
  }

  predicate Distinct(paths: InitPaths, global: bool) {
    var c := ConfigPath(paths, global);
    c != paths.claudeMd && c != paths.gitignore && paths.claudeMd != paths.gitignore
  }

  /** The state `init` leaves behind: the configuration exists, CLAUDE.md
      (when handled) carries the marker, and an existing .gitignore lists
      the configuration directory. */
  predicate Initialized(files: map<string, string>, paths: InitPaths, global: bool, inject: bool) {
    ConfigPath(paths, global) in files &&
    (TouchesClaudeMd(global, inject) ==> paths.claudeMd in files && HasMarker(files[paths.claudeMd])) &&
    (paths.gitignore in files ==> Contains(files[paths.gitignore], ConfigDirEntry))
  }

  /** The configuration step of `init`: the configuration is written only when it is missing. */
  function ConfigStep(files: map<string, string>, c: string): (after: map<string, string>)
    ensures c in after && after[c] == (if c in files then files[c] else DefaultConfigText)
    ensures forall p :: p != c ==> (p in after <==> p in files) && (p in files ==> after[p] == files[p])
  {
    if c in files then files else files[c := DefaultConfigText]
  }

  /** The CLAUDE.md step of `init`: an existing CLAUDE.md is updated unless it already
      carries the marker; a missing one is created from the template. */
  function ClaudeMdStep(files: map<string, string>, m: string, template: string): (after: map<string, string>)
    ensures m in after
    ensures after[m] == (if m !in files then template
                         else match ClaudeMdUpdate(files[m], template) case Some(t) => t case None => files[m])
    ensures forall p :: p != m ==> (p in after <==> p in files) && (p in files ==> after[p] == files[p])
  {
    if m !in files then files[m := template]
    else match ClaudeMdUpdate(files[m], template)
      case Some(t) => files[m := t]
      case None => files
  }

  /** The .gitignore step of `init`: an existing .gitignore gets the entry when it does not
      mention the directory yet. */
  function GitignoreStep(files: map<string, string>, g: string): (after: map<string, string>)
    ensures g in after <==> g in files
    ensures g in files ==> after[g] == if Contains(files[g], ConfigDirEntry) then files[g] else files[g] + GitignoreEntry
    ensures forall p :: p != g ==> (p in after <==> p in files) && (p in files ==> after[p] == files[p])
  {
    if g in files && !Contains(files[g], ConfigDirEntry) then files[g := files[g] + GitignoreEntry] else files
  }

  /** The files after `init`: the three steps in order. */
  function Initialize(files: map<string, string>, paths: InitPaths, global: bool, inject: bool): map<string, string> {
    var a := ConfigStep(files, ConfigPath(paths, global));
    var b := if TouchesClaudeMd(global, inject) then ClaudeMdStep(a, paths.claudeMd, Template) else a;
    GitignoreStep(b, paths.gitignore)
  }

  method WriteConfig(files: map<string, string>, c: string) returns (after: map<string, string>)
    ensures after == ConfigStep(files, c)
  {
    after := files;
    if c !in after {
      after := after[c := DefaultConfigText];
    }
  }

  method WriteClaudeMd(files: map<string, string>, m: string, template: string) returns (after: map<string, string>)
    ensures after == ClaudeMdStep(files, m, template)
  {
    after := files;
    if m in after {
      var u := InjectIntoClaudeMd(after[m], template);
      if u.Some? {
        after := after[m := u.value];
      }
    } else {
      after := after[m := template];
    }
  }

  method WriteGitignore(files: map<string, string>, g: string) returns (after: map<string, string>)
    ensures after == GitignoreStep(files, g)
  {
    after := files;
    if g in after {
      var text := after[g];
      if !Contains(text, ConfigDirEntry) {
        after := after[g := text + GitignoreEntry];
      }
    }
  }

  /** `init(options)`: write the configuration, handle CLAUDE.md, then
      .gitignore. */
  method Run(files: map<string, string>, paths: InitPaths, global: bool, inject: bool)
    returns (after: map<string, string>)
    ensures after == Initialize(files, paths, global, inject)
  {
    after := WriteConfig(files, ConfigPath(paths, global));
    if inject || !global {
      after := WriteClaudeMd(after, paths.claudeMd, Template);
    }
    after := WriteGitignore(after, paths.gitignore);
  }

  /** The configuration is written only when missing; CLAUDE.md, when
      handled, is created from the template or updated; .gitignore, when
      present, gets the entry only when it lacks the directory. */
  lemma {:induction false} InitializeFiles(files: map<string, string>, paths: InitPaths, global: bool, inject: bool)
    requires Distinct(paths, global)
    ensures var after := Initialize(files, paths, global, inject);
      var c := ConfigPath(paths, global);
      c in after && after[c] == (if c in files then files[c] else DefaultConfigText)
    ensures var after := Initialize(files, paths, global, inject);
      var m := paths.claudeMd;
      TouchesClaudeMd(global, inject) ==>
        (m in after &&
         after[m] == (if m !in files then Template
                      else match ClaudeMdUpdate(files[m], Template) case Some(t) => t case None => files[m]))
    ensures var after := Initialize(files, paths, global, inject);
      var g := paths.gitignore;
      (g in after <==> g in files) &&
      (g in files ==> after[g] == if Contains(files[g], ConfigDirEntry) then files[g] else files[g] + GitignoreEntry)
  {
  }

  /** No other file changes. */
  lemma {:induction false} InitializeTouchesNothingElse(files: map<string, string>, paths: InitPaths, global: bool, inject: bool, p: string)
    requires p != ConfigPath(paths, global) && p != paths.gitignore
    requires p != paths.claudeMd || !TouchesClaudeMd(global, inject)
    ensures var after := Initialize(files, paths, global, inject);
      (p in after <==> p in files) && (p in files ==> after[p] == files[p])
  {
  }

  /** Afterwards the files are initialized. */
  lemma {:induction false} InitializeInitializes(files: map<string, string>, paths: InitPaths, global: bool, inject: bool)
    requires Distinct(paths, global)
    ensures Initialized(Initialize(files, paths, global, inject), paths, global, inject)
  {
    var after := Initialize(files, paths, global, inject);
    InitializeFiles(files, paths, global, inject);
    var m := paths.claudeMd;
    if TouchesClaudeMd(global, inject) {
      TemplateHasMarker();
      if m in files && !HasMarker(files[m]) {
        UpdateIdempotent(files[m], Template);
      }
    }
    var g := paths.gitignore;
    if g in files && !Contains(files[g], ConfigDirEntry) {
      EntryHasConfigDir(files[g]);
    }
  }

  /** On files that are already initialized nothing changes, so running
      `init` twice is the same as running it once. */
  lemma {:induction false} InitializeIdempotent(files: map<string, string>, paths: InitPaths, global: bool, inject: bool)
    requires Distinct(paths, global)
    ensures Initialized(files, paths, global, inject) ==> Initialize(files, paths, global, inject) == files
    ensures var once := Initialize(files, paths, global, inject);
      Initialize(once, paths, global, inject) == once
  {
    InitializeInitializes(files, paths, global, inject);
    if Initialized(files, paths, global, inject) {
      UnchangedWhenInitialized(files, paths, global, inject);
    }
    UnchangedWhenInitialized(Initialize(files, paths, global, inject), paths, global, inject);
  }

  lemma {:induction false} UnchangedWhenInitialized(files: map<string, string>, paths: InitPaths, global: bool, inject: bool)
    requires Distinct(paths, global) && Initialized(files, paths, global, inject)
    ensures Initialize(files, paths, global, inject) == files
  {
    var c := ConfigPath(paths, global);
    var a := ConfigStep(files, c);
    assert a == files;
    var b := if TouchesClaudeMd(global, inject) then ClaudeMdStep(a, paths.claudeMd, Template) else a;
    assert b == files;
    assert GitignoreStep(b, paths.gitignore) == files;
  }
}
