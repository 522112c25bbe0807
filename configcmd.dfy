/** `cg config` (src/commands/config.ts): `--list` shows the loaded
    configuration; `--set key=value` types the value and saves that one key
    to the project file, or to the global file with `--global`. */
module ConfigCommand {
  import opened Text
  import opened Wrappers
  import opened ConfigStore

  /** `const [key, value] = arg.split('=')`, rejected when the key is empty
      or there is no second part. */
  function ParseSet(arg: string): (r: Option<(string, string)>)
    ensures r.Some? ==> r.value.0 != "" && '=' !in r.value.0 && '=' !in r.value.1
  {
    var parts := Split(arg, '=');
    if parts[0] == "" || |parts| < 2 then None else Some((parts[0], parts[1]))
  }

  /** The key runs up to the first '=' and the value up to the second one,
      if any: `a=b=c` sets `a` to `b`. */
  lemma {:induction false} ParseSetParts(key: string, value: string, tail: string)
    requires key != "" && '=' !in key && '=' !in value
    requires tail == "" || tail[0] == '='
    ensures ParseSet(key + "=" + value + tail) == Some((key, value))
  {
    SplitFirst(key, value + tail, '=');
    assert key + "=" + value + tail == key + ['='] + (value + tail);
    if tail == "" {
      SplitNoSep(value, '=');
      assert value + tail == value;
    } else {
      SplitFirst(value, tail[1..], '=');
      assert value + tail == value + ['='] + tail[1..];
    }
  }

  /** An argument without '=' or with an empty key is rejected. */
  lemma {:induction false} ParseSetRejects(arg: string)
    requires '=' !in arg || (arg != [] && arg[0] == '=')
    ensures ParseSet(arg) == None
  {
    if '=' !in arg {
      SplitNoSep(arg, '=');
    } else {
      SplitFirst("", arg[1..], '=');
      assert "" + ['='] + arg[1..] == arg;
    }
  }

  /** `Number(value)` for the strings this model reads as numbers: after
      trimming white space, nothing (0), decimal digits, or a sign followed
      by decimal digits. */
  function NumberValue(value: string): (r: Option<int>)
    ensures AllDigits(value) ==> r == Some(DigitsValue(value))
  {
    DigitsAreTrimmed(value);
    var t := Trim(value);
    if t == "" then Some(0)
    else if AllDigits(t) then Some(DigitsValue(t))
    else if |t| >= 2 && (t[0] == '-' || t[0] == '+') && AllDigits(t[1..]) then
      var d: int := DigitsValue(t[1..]);
      Some(if t[0] == '-' then -d else d)
    else None
  }

  lemma {:induction false} DigitsAreTrimmed(s: string)
    ensures AllDigits(s) ==> Trim(s) == s
  {
    if AllDigits(s) && s != [] {
      assert IsDigit(s[0]) && IsDigit(s[|s| - 1]);
      assert !IsSpace(s[0]) && !IsSpace(s[|s| - 1]);
      assert DropWhile(s, IsSpace) == s;
      assert DropLastWhile(s, IsSpace) == s;
    }
  }

  /** The value parsing of `config set`: exactly `true` and `false` are
      booleans, numeric strings numbers, anything else the string itself. */
  function ParseValue(value: string): (r: Value)
    ensures value == "true" <==> r == Bool(true)
    ensures value == "false" <==> r == Bool(false)
    ensures r.Str? ==> r.s == value
    ensures value != "true" && value != "false" && NumberValue(value).Some? ==> r == Num(NumberValue(value).value)
    ensures value != "true" && value != "false" && NumberValue(value).None? ==> r == Str(value)
    ensures r.Bool? || r.Str? || r.Num?
  {
    if value == "true" then Bool(true)
    else if value == "false" then Bool(false)
    else match NumberValue(value)
      case Some(n) => Num(n)
      case None => Str(value)
  }

  /** A number's decimal text is read back as that number, and the empty
      string as 0. */
  lemma {:induction false} ParseValueNumbers(n: nat)
    ensures ParseValue(NatToString(n)) == Num(n)
    ensures ParseValue("") == Num(0)
  {
    var t := NatToString(n);
    assert t != "true" by { assert "true"[0] == 't'; }
    assert t != "false" by { assert "false"[0] == 'f'; }
    assert AllDigits(t);
  }

  datatype Options = Options(list: bool, assignment: string, global: bool)

  datatype Outcome = Listed(config: Config) | SetValue(key: string, value: Value) | InvalidFormat | Usage

  /** `config(options)` on the three configuration files: what it reports
      and the files afterwards. `assignment` is the `--set` argument, "" when not given. */
  function Run(opts: Options, files: Files): (Outcome, Files) {
    if opts.list then (Listed(Loaded(files)), files)
    else if opts.assignment != "" then
      match ParseSet(opts.assignment)
      case None => (InvalidFormat, files)
      case Some((key, value)) =>
        var v := ParseValue(value);
        (SetValue(key, v), Save(files, map[key := v], opts.global))
    else (Usage, files)
  }

  /** `--list` reports the loaded configuration and writes nothing, even
      together with `--set`. */
  lemma {:induction false} ListWritesNothing(opts: Options, files: Files)
    requires opts.list
    ensures Run(opts, files) == (Listed(Loaded(files)), files)
  {
  }

  /** A malformed `--set` writes nothing. */
  lemma {:induction false} InvalidSetWritesNothing(opts: Options, files: Files)
    requires !opts.list && opts.assignment != "" && ('=' !in opts.assignment || opts.assignment[0] == '=')
    ensures Run(opts, files) == (InvalidFormat, files)
  {
    ParseSetRejects(opts.assignment);
  }

  /** A well-formed `--set key=value` saves exactly that key, typed, into
      the global file with `--global` and the project file otherwise, and
      leaves every other key of that file and the other files alone; the
      new value is then what `loadConfig` returns for the key unless a
      later layer sets it. */
  lemma {:induction false} SetSavesOneKey(opts: Options, files: Files, key: string, value: string, tail: string)
    requires !opts.list
    requires key != "" && '=' !in key && '=' !in value && (tail == "" || tail[0] == '=')
    requires opts.assignment == key + "=" + value + tail
    ensures var (out, after) := Run(opts, files);
      var v := ParseValue(value);
      out == SetValue(key, v) &&
      after.root == files.root &&
      (opts.global ==> after.project == files.project && after.global == Some(SaveConfig(files.global, map[key := v]))) &&
      (!opts.global ==> after.global == files.global && after.project == Some(SaveConfig(files.project, map[key := v])))
    ensures var (out, after) := Run(opts, files);
      (files.root.None? || key !in files.root.value) &&
      (opts.global ==> files.project.None? || key !in files.project.value) ==>
        key in Loaded(after) && Loaded(after)[key] == ParseValue(value)
  {
    ParseSetParts(key, value, tail);
    assert opts.assignment != "";
    if (files.root.None? || key !in files.root.value) &&
       (opts.global ==> files.project.None? || key !in files.project.value) {
      SavedIsLoaded(files, key, ParseValue(value), opts.global);
    }
  }
}
