/** The configuration store (src/config/index.ts): up to three JSON layers
    (global, project, project-root file) merged over the defaults, later
    layers winning key by key, and saving as a merge into one file. */
module ConfigStore {
  import opened Wrappers

  /** The JSON values configuration entries take. */
  datatype Value = Bool(b: bool) | Num(n: int) | Str(s: string) | StrList(items: seq<string>)

  type Config = map<string, Value>

  const DefaultConfig: Config := map[
    "timeout" := Num(300),
    "model" := Str("gemini-2.5-pro"),
    "ripgrep" := Bool(true),
    "format" := Bool(true),
    "watchPatterns" := StrList(["*.ts", "*.tsx", "*.js", "*.jsx"])
  ]

  /** `{ ...base, ...over }`: every key of either, the value of `over` where
      both have one. */
  function Spread(base: Config, over: Config): (r: Config)
    ensures r.Keys == base.Keys + over.Keys
    ensures forall k :: k in over ==> r[k] == over[k]
    ensures forall k :: k in base && k !in over ==> r[k] == base[k]
  {
    base + over
  }

  /** `configs.reduce((acc, config) => ({ ...acc, ...config }), {})`. */
  function MergeLayers(layers: seq<Config>): Config
    decreases |layers|
  {
    if layers == [] then map[] else Spread(MergeLayers(layers[..|layers| - 1]), layers[|layers| - 1])
  }

  /** A key takes its value from the last layer defining it. */
  lemma {:induction false} MergeLastWins(layers: seq<Config>, k: string, i: nat)
    requires i < |layers| && k in layers[i]
    requires forall j :: i < j < |layers| ==> k !in layers[j]
    ensures k in MergeLayers(layers) && MergeLayers(layers)[k] == layers[i][k]
    decreases |layers|
  {
    if i < |layers| - 1 {
      var init := layers[..|layers| - 1];
      assert forall j :: i < j < |init| ==> init[j] == layers[j];
      MergeLastWins(init, k, i);
    }
  }

  /** A key no layer defines is not in the merge. */
  lemma {:induction false} MergeAbsent(layers: seq<Config>, k: string)
    requires forall j :: 0 <= j < |layers| ==> k !in layers[j]
    ensures k !in MergeLayers(layers)
    decreases |layers|
  {
    if layers != [] {
      var init := layers[..|layers| - 1];
      assert forall j :: 0 <= j < |init| ==> init[j] == layers[j];
      MergeAbsent(init, k);
    }
  }

  /** The contents of the three files, `None` for a missing one. */
  datatype Files = Files(global: Option<Config>, project: Option<Config>, root: Option<Config>)

  function Present(c: Option<Config>): seq<Config> {
    if c.Some? then [c.value] else []
  }

  /** What `loadConfig` returns. */
  function Loaded(files: Files): Config {
    Spread(DefaultConfig, MergeLayers(Layers(files)))
  }

  /** The layers `loadConfig` finds, in the order global, project, root. */
  function Layers(files: Files): seq<Config> {
    Present(files.global) + Present(files.project) + Present(files.root)
  }

  /** The reading part of `loadConfig`: each file that exists is read and pushed. */
  method CollectLayers(files: Files) returns (configs: seq<Config>)
    ensures configs == Layers(files)
  {
    configs := [];
    if files.global.Some? {
      configs := configs + [files.global.value];
    }
    assert configs == Present(files.global);
    if files.project.Some? {
      configs := configs + [files.project.value];
    }
    assert configs == Present(files.global) + Present(files.project);
    if files.root.Some? {
      configs := configs + [files.root.value];
    }
  }

  /** `loadConfig()`: the present layers are merged over the defaults. */
  method LoadConfig(files: Files) returns (c: Config)
    ensures c == Loaded(files)
  {
    var configs := CollectLayers(files);
    c := Spread(DefaultConfig, MergeLayers(configs));
  }

  /** Per key, the loaded value is the root file's if it has the key, else
      the project file's, else the global file's, else the default; keys
      found nowhere are absent. */
  lemma {:induction false} LoadedLastWins(files: Files, k: string)
    ensures var c := Loaded(files);
      var inRoot := files.root.Some? && k in files.root.value;
      var inProject := files.project.Some? && k in files.project.value;
      var inGlobal := files.global.Some? && k in files.global.value;
      (inRoot ==> k in c && c[k] == files.root.value[k]) &&
      (!inRoot && inProject ==> k in c && c[k] == files.project.value[k]) &&
      (!inRoot && !inProject && inGlobal ==> k in c && c[k] == files.global.value[k]) &&
      (!inRoot && !inProject && !inGlobal ==>
        (k in c <==> k in DefaultConfig) && (k in DefaultConfig ==> c[k] == DefaultConfig[k]))
  {
    LayersLastWins(files, k);
  }

  /** The same, for the merged layers alone. */
  lemma {:induction false} LayersLastWins(files: Files, k: string)
    ensures var m := MergeLayers(Layers(files));
      var inRoot := files.root.Some? && k in files.root.value;
      var inProject := files.project.Some? && k in files.project.value;
      var inGlobal := files.global.Some? && k in files.global.value;
      (inRoot ==> k in m && m[k] == files.root.value[k]) &&
      (!inRoot && inProject ==> k in m && m[k] == files.project.value[k]) &&
      (!inRoot && !inProject && inGlobal ==> k in m && m[k] == files.global.value[k]) &&
      (!inRoot && !inProject && !inGlobal ==> k !in m)
  {
    var g := Present(files.global);
    var p := Present(files.project);
    var r := Present(files.root);
    var layers := Layers(files);
    assert layers == g + p + r;
    var inRoot := files.root.Some? && k in files.root.value;
    var inProject := files.project.Some? && k in files.project.value;
    var inGlobal := files.global.Some? && k in files.global.value;
    if inRoot {
      assert layers[|g| + |p|] == files.root.value;
      MergeLastWins(layers, k, |g| + |p|);
    } else if inProject {
      assert layers[|g|] == files.project.value;
      MergeLastWins(layers, k, |g|);
    } else if inGlobal {
      assert layers[0] == files.global.value;
      MergeLastWins(layers, k, 0);
    } else {
      assert forall j :: 0 <= j < |layers| ==> layers[j] in g || layers[j] in p || layers[j] in r;
      MergeAbsent(layers, k);
    }
  }

  /** With no configuration file at all the defaults are returned. */
  lemma {:induction false} LoadedWithoutFiles()
    ensures Loaded(Files(None, None, None)) == DefaultConfig
  {
    assert Present(None) + Present(None) + Present(None) == [];
  }

  /** `saveConfig(config, global)` on the target file's content: the file
      keeps the keys the update does not mention and takes the update's
      value for the others. */
  function SaveConfig(existing: Option<Config>, update: Config): (r: Config)
    ensures r.Keys == update.Keys + (if existing.Some? then existing.value.Keys else {})
    ensures forall k :: k in update ==> r[k] == update[k]
    ensures existing.Some? ==> forall k :: k in existing.value && k !in update ==> r[k] == existing.value[k]
  {
    Spread(if existing.Some? then existing.value else map[], update)
  }

  /** Saving writes the global file with `global` and the project file
      otherwise; the other files are untouched. */
  function Save(files: Files, update: Config, global: bool): (r: Files)
    ensures r.root == files.root
    ensures global ==> r.project == files.project && r.global == Some(SaveConfig(files.global, update))
    ensures !global ==> r.global == files.global && r.project == Some(SaveConfig(files.project, update))
  {
    if global then files.(global := Some(SaveConfig(files.global, update)))
    else files.(project := Some(SaveConfig(files.project, update)))
  }

  /** A value saved to the global file is what `loadConfig` returns for its
      key unless the project or root file sets that key; one saved to the
      project file, unless the root file sets it. */
  lemma {:induction false} SavedIsLoaded(files: Files, k: string, v: Value, global: bool)
    requires files.root.None? || k !in files.root.value
    requires global ==> files.project.None? || k !in files.project.value
    ensures k in Loaded(Save(files, map[k := v], global)) && Loaded(Save(files, map[k := v], global))[k] == v
  {
    LoadedLastWins(Save(files, map[k := v], global), k);
  }
}
