/** `cg inject` (src/commands/inject.ts): add the Claude-Gemini usage
    instructions to an existing CLAUDE.md, right after the first section
    about tools, commands, development or analysis, or else at the end. */
module Inject {
  import opened Text
  import opened Wrappers

  /** The marker the instruction block carries. */
  const Marker: string := "Claude-Gemini"

  /** The lines of the instruction block inserted into CLAUDE.md. */
  const InstructionTitle: string := "## " + Marker + " Integration"

  const InstructionLines: seq<string> := ["", InstructionTitle] + InstructionBody

  const InstructionBody: seq<string> := [
    "",
    "This project uses the claude-gemini CLI for analyzing large codebases. As Claude, I must use this tool when:",
    "",
    "1. Analyzing entire directories or multiple large files",
    "2. The requested analysis would exceed my context window",
    "3. You explicitly ask for comprehensive codebase analysis",
    "",
    "### CRITICAL: Synchronous Execution",
    "",
    "**IMPORTANT**: I MUST use the `claude-gemini` or `cg` command (NOT direct gemini):",
    "",
    "```bash",
    "# ✅ CORRECT - Waits for results",
    "claude-gemini \"@src/ @lib/ Find all API endpoints\"",
    "cg \"@src/ @lib/ Find all API endpoints\"",
    "",
    "# ❌ WRONG - May not wait for results",
    "gemini -p \"@src/ @lib/ Find all API endpoints\"",
    "```",
    "",
    "### Usage Examples",
    "",
    "```bash",
    "# Analyze specific files",
    "cg \"@src/auth.ts @src/middleware.ts Analyze authentication flow\"",
    "",
    "# Analyze entire directories",
    "cg \"@src/ @lib/ Find all WebSocket implementations\"",
    "",
    "# Use ripgrep for targeted searches",
    "cg -r \"@src/ Find all useState hooks\"",
    "",
    "# Analyze with specific timeout",
    "cg -t 600 \"@./ Comprehensive security audit\"",
    "```",
    "",
    "### My Workflow (MUST FOLLOW):",
    "1. Detect when large analysis is needed",
    "2. Use `cg` command (NOT direct gemini)",
    "3. Wait for \"✅ Analysis complete!\" message",
    "4. Use the comprehensive results",
    "5. Do NOT proceed with limited analysis while waiting",
    ""
  ]

  const Instructions: string := Join(InstructionLines, '\n')

  /** The marker test of `inject` (and of `injectIntoClaudeMd` in src/commands/init.ts). */
  predicate HasMarker(content: string) {
    Contains(content, "claude-gemini") || Contains(content, "Claude-Gemini")
  }

  lemma {:induction false} InstructionsHaveMarker()
    ensures Contains(Instructions, Marker)
  {
    ContainsAt(Marker, Marker, 0);
    ContainsInLeft(Marker, " Integration", Marker);
    assert InstructionTitle == "## " + (Marker + " Integration");
    ContainsInRight("## ", Marker + " Integration", Marker);
    assert InstructionLines[1] == InstructionTitle;
    JoinContainsPart(InstructionLines, '\n', 1, Marker);
  }

  // ---------------------------------------------------------------------
  // Headings (ASCII case folding; `\s` is the same set as `trim`'s).

  /** `s` begins with one of the section names, ignoring ASCII case. */
  predicate StartsWithSectionName(s: string) {
    var l := Lower(s);
    StartsWith(l, "tools") || StartsWith(l, "commands") || StartsWith(l, "development") || StartsWith(l, "analysis")
  }

  /** The length of the `#{1,2}` in a match of `/^#{1,2}\s+/`, or 0 when the
      line does not match. */
  function HashCount(line: string): (n: nat)
    ensures n <= 2 && (n > 0 ==> n < |line| && IsSpace(line[n]) && line[0] == '#' && line[n - 1] == '#')
    ensures n == 0 ==> !(|line| >= 2 && line[0] == '#' && IsSpace(line[1]))
    ensures n == 0 ==> !(|line| >= 3 && line[0] == '#' && line[1] == '#' && IsSpace(line[2]))
  {
    if |line| >= 2 && line[0] == '#' && IsSpace(line[1]) then 1
    else if |line| >= 3 && line[0] == '#' && line[1] == '#' && IsSpace(line[2]) then 2
    else 0
  }

  /** `/^#{1,2}\s+/`. */
  predicate IsHeading(line: string) {
    HashCount(line) > 0
  }

  /** `/^#{1,2}\s+(Tools|Commands|Development|Analysis)/i`. */
  predicate IsSection(line: string) {
    IsHeading(line) && StartsWithSectionName(TrimStart(line[HashCount(line)..]))
  }

  /** Where the inner scan of `inject` stops: a blank line or a heading. */
  predicate EndsSection(line: string) {
    Trim(line) == "" || IsHeading(line)
  }

  // ---------------------------------------------------------------------
  // Searching and inserting.

  /** The first index at or after `from` whose line satisfies `p`. */
  function FindFirst(lines: seq<string>, p: string -> bool, from: nat): (r: Option<nat>)
    requires from <= |lines|
    ensures r.Some? ==>
      from <= r.value < |lines| && p(lines[r.value]) && forall k :: from <= k < r.value ==> !p(lines[k])
    ensures r.None? ==> forall k :: from <= k < |lines| ==> !p(lines[k])
    decreases |lines| - from
  {
    if from == |lines| then None
    else if p(lines[from]) then Some(from)
    else FindFirst(lines, p, from + 1)
  }

  /** A line satisfying `p` with none before it (from `from` on) is the one
      found. */
  lemma {:induction false} FindFirstIs(lines: seq<string>, p: string -> bool, from: nat, j: nat)
    requires from <= j < |lines| && p(lines[j]) && forall k :: from <= k < j ==> !p(lines[k])
    ensures FindFirst(lines, p, from) == Some(j)
  {
  }

  lemma {:induction false} FindFirstNone(lines: seq<string>, p: string -> bool, from: nat)
    requires from <= |lines| && forall k :: from <= k < |lines| ==> !p(lines[k])
    ensures FindFirst(lines, p, from) == None
  {
  }

  /** Lines appended after the one found do not change the search. */
  lemma {:induction false} FindFirstAppend(lines: seq<string>, rest: seq<string>, p: string -> bool, from: nat)
    requires from <= |lines| && FindFirst(lines, p, from).Some?
    ensures FindFirst(lines + rest, p, from) == FindFirst(lines, p, from)
  {
    var j := FindFirst(lines, p, from).value;
    var all := lines + rest;
    assert all[j] == lines[j];
    assert forall k :: from <= k < j ==> all[k] == lines[k];
    FindFirstIs(all, p, from, j);
  }

  /** The first section heading. */
  function FirstSection(lines: seq<string>): Option<nat> {
    FindFirst(lines, IsSection, 0)
  }

  /** Where the instructions go after the section heading at `i`: the first
      later line that is blank or a heading, or the end. */
  function SectionEnd(lines: seq<string>, i: nat): (j: nat)
    requires i < |lines|
    ensures i < j <= |lines|
  {
    match FindFirst(lines, EndsSection, i + 1)
    case Some(j) => j
    case None => |lines|
  }

  /** `lines.splice(j, 0, x)`. */
  function InsertAt(lines: seq<string>, j: nat, x: string): (r: seq<string>)
    requires j <= |lines|
    ensures |r| == |lines| + 1 && r[j] == x
    ensures r[..j] == lines[..j] && r[j + 1..] == lines[j..]
  {
    lines[..j] + [x] + lines[j..]
  }

  /** The lines after injecting `block`, as `inject` computes them. */
  function Injected(lines: seq<string>, block: string): seq<string> {
    match FirstSection(lines)
    case Some(i) => InsertAt(lines, SectionEnd(lines, i), block)
    case None => lines + ["", block]
  }

  /** The inner scan of `inject`: from the line after the heading at `i`, advance to the
      first blank line or heading. */
  method FindBlockEnd(lines: seq<string>, i: nat) returns (j: nat)
    requires i < |lines|
    ensures j == SectionEnd(lines, i)
  {
    j := i + 1;
    while j < |lines| && !EndsSection(lines[j])
      invariant i < j <= |lines|
      invariant FindFirst(lines, EndsSection, j) == FindFirst(lines, EndsSection, i + 1)
    {
      j := j + 1;
    }
  }

  /** The scan of `inject`: scan for the first section heading, insert the block
      where its first paragraph ends, and stop; with no such heading, append
      a blank line and the block. */
  method InjectLines(lines: seq<string>, block: string) returns (out: seq<string>)
    ensures out == Injected(lines, block)
  {
    out := lines;
    var injected := false;
    for i := 0 to |lines|
      invariant out == lines && !injected
      invariant FindFirst(lines, IsSection, i) == FirstSection(lines)
    {
      if IsSection(lines[i]) {
        var j := FindBlockEnd(lines, i);
        out := lines[..j] + [block] + lines[j..];
        injected := true;
        break;
      }
    }
    if !injected {
      out := out + ["", block];
    }
  }

  // ---------------------------------------------------------------------
  // Properties of the injection.

  /** With a section heading, exactly one line is inserted, right where its
      first block ends, and every original line keeps its order. */
  lemma {:induction false} InjectedAtSection(lines: seq<string>, block: string, i: nat, j: nat)
    requires i < |lines| && IsSection(lines[i]) && forall k :: 0 <= k < i ==> !IsSection(lines[k])
    requires i < j <= |lines| && (j < |lines| ==> EndsSection(lines[j]))
    requires forall k :: i < k < j ==> !EndsSection(lines[k])
    ensures var out := Injected(lines, block);
      |out| == |lines| + 1 && out[j] == block &&
      out[..j] == lines[..j] && out[j + 1..] == lines[j..]
  {
    FindFirstIs(lines, IsSection, 0, i);
    if j < |lines| {
      FindFirstIs(lines, EndsSection, i + 1, j);
    } else {
      FindFirstNone(lines, EndsSection, i + 1);
    }
    assert SectionEnd(lines, i) == j;
    assert Injected(lines, block) == InsertAt(lines, j, block);
  }

  /** Only the first section heading counts: when its block ends inside
      `lines`, whatever follows changes neither where the instructions go
      nor what comes before them. */
  lemma {:induction false} OnlyFirstSection(lines: seq<string>, rest: seq<string>, block: string, i: nat)
    requires FirstSection(lines) == Some(i) && i < |lines| && SectionEnd(lines, i) < |lines|
    ensures FirstSection(lines + rest) == Some(i)
    ensures SectionEnd(lines + rest, i) == SectionEnd(lines, i)
    ensures Injected(lines + rest, block) == Injected(lines, block) + rest
  {
    FindFirstAppend(lines, rest, IsSection, 0);
    FindFirstAppend(lines, rest, EndsSection, i + 1);
    InsertAtAppend(lines, rest, SectionEnd(lines, i), block);
  }

  lemma {:induction false} InsertAtAppend(lines: seq<string>, rest: seq<string>, j: nat, x: string)
    requires j <= |lines|
    ensures InsertAt(lines + rest, j, x) == InsertAt(lines, j, x) + rest
  {
    var all := lines + rest;
    assert all[..j] == lines[..j];
    assert all[j..] == lines[j..] + rest;
  }

  /** With no section heading the result is the lines, a blank line and the
      instructions. */
  lemma {:induction false} InjectedAtEnd(lines: seq<string>, block: string)
    requires forall k :: 0 <= k < |lines| ==> !IsSection(lines[k])
    ensures Injected(lines, block) == lines + ["", block]
  {
    FindFirstNone(lines, IsSection, 0);
  }

  /** Where the instructions land: the end of the first section's block, or
      after the appended blank line. */
  function InsertionIndex(lines: seq<string>): (j: nat)
    ensures j <= |lines| + 1
  {
    match FirstSection(lines)
    case Some(i) => SectionEnd(lines, i)
    case None => |lines| + 1
  }

  /** The original lines survive in order: taking the instructions out of
      the result gives them back (followed by the blank separator line when
      they were appended). */
  lemma {:induction false} InjectedKeepsLines(lines: seq<string>, block: string)
    ensures var out := Injected(lines, block);
      var j := InsertionIndex(lines);
      j < |out| && out[j] == block &&
      out[..j] + out[j + 1..] == lines + (if FirstSection(lines).None? then [""] else [])
  {
    var out := Injected(lines, block);
    var j := InsertionIndex(lines);
    match FirstSection(lines)
    case Some(i) =>
      assert out == InsertAt(lines, j, block);
      InsertAtKeeps(lines, j, block);
    case None =>
      assert out == lines + ["", block];
      AppendKeeps(lines, "", block);
  }

  lemma {:induction false} InsertAtKeeps(lines: seq<string>, j: nat, x: string)
    requires j <= |lines|
    ensures InsertAt(lines, j, x)[..j] + InsertAt(lines, j, x)[j + 1..] == lines
  {
    assert lines[..j] + lines[j..] == lines;
  }

  lemma {:induction false} AppendKeeps(lines: seq<string>, a: string, b: string)
    ensures var out := lines + [a, b];
      out[|lines| + 1] == b && out[..|lines| + 1] + out[|lines| + 2..] == lines + [a]
  {
    var out := lines + [a, b];
    assert out[..|lines| + 1] == lines + [a];
    assert out[|lines| + 2..] == [];
  }

  /** After injecting a block that carries the marker, the file carries it
      too. */
  lemma {:induction false} InjectedHasMarker(lines: seq<string>, block: string)
    requires Contains(block, Marker)
    ensures HasMarker(Join(Injected(lines, block), '\n'))
  {
    var out := Injected(lines, block);
    var j := InsertionIndex(lines);
    InjectedKeepsLines(lines, block);
    JoinContainsPart(out, '\n', j, Marker);
  }

  // ---------------------------------------------------------------------
  // The command.

  datatype InjectResult = FileMissing | AlreadyPresent | Written(text: string)

  /** `inject(options)` on the file's content (`None` when it does not
      exist): a missing file and an already-marked file without `--force`
      write nothing; otherwise the new text is written. */
  method Run(content: Option<string>, force: bool) returns (r: InjectResult)
    ensures content.None? ==> r == FileMissing
    ensures content.Some? && HasMarker(content.value) && !force ==> r == AlreadyPresent
    ensures content.Some? && (!HasMarker(content.value) || force) ==>
      r == Written(Join(Injected(Split(content.value, '\n'), Instructions), '\n'))
  {
    if content.None? {
      return FileMissing;
    }
    var text := content.value;
    if HasMarker(text) && !force {
      return AlreadyPresent;
    }
    var lines := InjectLines(Split(text, '\n'), Instructions);
    r := Written(Join(lines, '\n'));
  }

  /** After an injection the file carries the marker, so running the
      command again without `--force` writes nothing. */
  lemma {:induction false} InjectIdempotent(content: string)
    ensures HasMarker(Join(Injected(Split(content, '\n'), Instructions), '\n'))
  {
    InstructionsHaveMarker();
    InjectedHasMarker(Split(content, '\n'), Instructions);
  }
}
