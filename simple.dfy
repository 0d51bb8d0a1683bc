/**
 * The stand-alone one-shot binary: a prompt and a model token in, one
 * llama-cli or ollama run out. It shares the token splitting, the argv
 * shapes and the link directory layout with the dispatcher, but finds its
 * model file and its programs by simpler rules.
 */
module SimpleBin {
  import opened Wrappers
  import opened Paths
  import opened FileSystem
  import Text
  import Layout
  import ModelTag
  import opened Commands

  /** The command line: `-m/--model`, the positional model, `--link-dir` (or its environment variable) and the prompt words. */
  datatype SimpleCli = SimpleCli(modelFlag: Option<string>, modelPos: Option<string>, linkDir: Option<Path>, prompt: seq<string>)

  /** `default_link_dir`: the environment override if set, else `~/.guffy/models`. */
  function DefaultLinkDir(envDir: Option<Path>, home: Path): (d: Path)
    ensures envDir.Some? ==> d == envDir.value
    ensures envDir.None? ==> d == Push(home, ".guffy/models")
  {
    match envDir
    case Some(e) => e
    case None => Push(home, ".guffy/models")
  }

  /** Both binaries use the same link directory for the same override. */
  lemma SameLinkDirAsDispatcher(envDir: Option<Path>, home: Path)
    ensures DefaultLinkDir(envDir, home) == Layout.ModelsDirWith(envDir, home)
  {
  }

  /**
   * `link_path_for`: the model pushed onto the base directory (the
   * override, else the default), with ".gguf" set as extension only when
   * the result has none.
   */
  function LinkPathFor(model: string, linkOverride: Option<Path>, envDir: Option<Path>, home: Path): (p: Path)
    ensures var q := Push(linkOverride.GetOr(DefaultLinkDir(envDir, home)), model);
      Extension(q).Some? ==> p == q
  {
    var q := Push(linkOverride.GetOr(DefaultLinkDir(envDir, home)), model);
    if Extension(q).None? then SetExtension(q, "gguf") else q
  }

  /** A plain name without a dot gets ".gguf" appended. */
  lemma LinkPathForAddsGguf(model: string, linkOverride: Option<Path>, envDir: Option<Path>, home: Path)
    requires PlainName(model) && '.' !in model
    ensures LinkPathFor(model, linkOverride, envDir, home) == Push(linkOverride.GetOr(DefaultLinkDir(envDir, home)), model + ".gguf")
  {
    PushedSetExtension(linkOverride.GetOr(DefaultLinkDir(envDir, home)), model);
  }

  /** "llama3.2" counts as having an extension, so it is looked up as it stands. */
  lemma DottedModelKeepsName(linkOverride: Option<Path>, envDir: Option<Path>, home: Path)
    ensures LinkPathFor("llama3.2", linkOverride, envDir, home) == Push(linkOverride.GetOr(DefaultLinkDir(envDir, home)), "llama3.2")
  {
    DottedNameHasExtension(linkOverride.GetOr(DefaultLinkDir(envDir, home)));
  }

  /** A stable link name `name-tag.gguf` is used as it stands: no second extension. */
  lemma LinkNameUnchanged(name: string, tag: string, linkOverride: Option<Path>, envDir: Option<Path>, home: Path)
    requires '/' !in tag
    ensures LinkPathFor(ModelTag.LinkName(name, tag), linkOverride, envDir, home)
      == Push(linkOverride.GetOr(DefaultLinkDir(envDir, home)), name + "-" + tag + ".gguf")
  {
    ModelTag.LinkNameHasGgufExtension(linkOverride.GetOr(DefaultLinkDir(envDir, home)), name, tag);
  }

  /** What a decision promises about the argv: the shapes of the one-shot llama-cli and ollama runs, and never a server. */
  predicate PromptShaped(a: Action, prompt: string) {
    && (a.Exec? && a.program == LlamaCli ==> |a.args| == 5 && a.args[2] == "-p" && a.args[3] == prompt)
    && (a.Exec? && a.program == Ollama ==> |a.args| == 3 && a.args[0] == "run" && a.args[2] == prompt)
    && (a.Exec? ==> a.program != LlamaServer)
  }

  /** A `name:tag` token: the remote backend for the cloud tag, else llama-cli on the stable link name. */
  function DecideTagged(model: string, prompt: string, linkDir: Option<Path>, envDir: Option<Path>, home: Path): (a: Action)
    ensures PromptShaped(a, prompt)
  {
    var (name, tag) := ModelTag.SplitModelTag(model);
    if ModelTag.IsCloudTag(tag) then Exec(Ollama, OllamaPromptArgs(name, tag, prompt))
    else Exec(LlamaCli, CliPromptArgs(LinkPathFor(ModelTag.LinkName(name, tag), linkDir, envDir, home), prompt))
  }

  /**
   * A bare token whose link path is `p`: llama-cli on `p` exactly when it
   * exists; otherwise `ollama run model:cloud` exactly when the probe finds
   * the model; otherwise exit 1.
   */
  function DecideBare(fs: Fs, p: Path, model: string, prompt: string, cloud: string -> bool): (a: Action)
    ensures PromptShaped(a, prompt)
    ensures a.Exec? && a.program == LlamaCli <==> Exists(fs, p)
    ensures a.Exec? && a.program == LlamaCli ==> a.args == ["-m", p, "-p", prompt, "-no-cnv"]
    ensures a.Exec? && a.program == Ollama <==> !Exists(fs, p) && cloud(model)
    ensures a.Exec? && a.program == Ollama ==> a.args[1] == model + ":cloud"
    ensures !a.Exec? <==> a == Exit(1)
  {
    if Exists(fs, p) then Exec(LlamaCli, CliPromptArgs(p, prompt))
    else if cloud(model) then Exec(Ollama, OllamaPromptArgs(model, ModelTag.CloudTag, prompt))
    else Exit(1)
  }

  /**
   * The decision of `main`: the prompt is checked first, then the model
   * (`-m` before the positional one), then the token's form.
   */
  function SimpleDecide(fs: Fs, cli: SimpleCli, envDir: Option<Path>, home: Path, cloud: string -> bool): (a: Action)
    ensures PromptShaped(a, Prompt(cli.prompt))
  {
    var prompt := Prompt(cli.prompt);
    if prompt == "" then Exit(2)
    else match cli.modelFlag.Or(cli.modelPos)
      case None => Exit(2)
      case Some(model) =>
        if ':' in model then DecideTagged(model, prompt, cli.linkDir, envDir, home)
        else DecideBare(fs, LinkPathFor(model, cli.linkDir, envDir, home), model, prompt, cloud)
  }

  /** Exit 2 exactly when the prompt is empty or no model was given; the prompt is checked before the model. */
  lemma UsageErrors(fs: Fs, cli: SimpleCli, envDir: Option<Path>, home: Path, cloud: string -> bool)
    ensures SimpleDecide(fs, cli, envDir, home, cloud) == Exit(2) <==>
      Prompt(cli.prompt) == "" || (cli.modelFlag.None? && cli.modelPos.None?)
    ensures Prompt(cli.prompt) == "" ==> forall f, m :: SimpleDecide(fs, cli.(modelFlag := f, modelPos := m), envDir, home, cloud) == Exit(2)
  {
  }

  /** `-m` takes precedence: with it given, the positional model plays no part. */
  lemma ModelFlagWins(fs: Fs, cli: SimpleCli, envDir: Option<Path>, home: Path, cloud: string -> bool)
    requires cli.modelFlag.Some?
    ensures forall pos :: SimpleDecide(fs, cli.(modelPos := pos), envDir, home, cloud) == SimpleDecide(fs, cli, envDir, home, cloud)
  {
  }

  /**
   * A tagged model: the cloud tag (any ASCII case) runs `ollama run
   * name:tag prompt`; any other tag runs llama-cli on the stable link
   * `name-tag.gguf` in the link directory, whether or not that file exists
   * and whatever the probe says.
   */
  lemma TaggedModel(fs: Fs, cli: SimpleCli, envDir: Option<Path>, home: Path, cloud: string -> bool, model: string)
    requires Prompt(cli.prompt) != "" && cli.modelFlag.Or(cli.modelPos) == Some(model)
    requires ':' in model && '/' !in ModelTag.SplitModelTag(model).1
    ensures var (name, tag) := ModelTag.SplitModelTag(model);
      var base := cli.linkDir.GetOr(DefaultLinkDir(envDir, home));
      SimpleDecide(fs, cli, envDir, home, cloud) ==
        if ModelTag.IsCloudTag(tag) then Exec(Ollama, ["run", name + ":" + tag, Prompt(cli.prompt)])
        else Exec(LlamaCli, ["-m", Push(base, name + "-" + tag + ".gguf"), "-p", Prompt(cli.prompt), "-no-cnv"])
    ensures forall fs', cloud' :: SimpleDecide(fs', cli, envDir, home, cloud') == SimpleDecide(fs, cli, envDir, home, cloud)
  {
    var (name, tag) := ModelTag.SplitModelTag(model);
    LinkNameUnchanged(name, tag, cli.linkDir, envDir, home);
  }

  /** A bare model is decided on its link path, and never exits 2. */
  lemma BareModel(fs: Fs, cli: SimpleCli, envDir: Option<Path>, home: Path, cloud: string -> bool, model: string)
    requires Prompt(cli.prompt) != "" && cli.modelFlag.Or(cli.modelPos) == Some(model) && ':' !in model
    ensures SimpleDecide(fs, cli, envDir, home, cloud)
      == DecideBare(fs, LinkPathFor(model, cli.linkDir, envDir, home), model, Prompt(cli.prompt), cloud)
  {
  }

  /** The PATH candidates of this binary's `resolve_bin`: each entry, a '/', and the program name. */
  function Candidates(pathVar: string, name: string): (c: seq<Path>)
    ensures |c| == |Text.Split(pathVar, ':')|
    ensures forall k :: 0 <= k < |c| ==> c[k] == Text.Split(pathVar, ':')[k] + "/" + name
  {
    var dirs := Text.Split(pathVar, ':');
    seq(|dirs|, k requires 0 <= k < |dirs| => dirs[k] + "/" + name)
  }

  /** Where this binary finds a program: nowhere without PATH, else the first candidate that exists. */
  function BinOnPath(fs: Fs, pathVar: Option<string>, name: string): Option<Path> {
    match pathVar
    case None => None
    case Some(path) => FirstExistingOf(fs, Candidates(path, name))
  }

  /** The PATH scan is the first existing candidate: none earlier exists, and none at all when it fails. */
  lemma BinOnPathSpec(fs: Fs, path: string, name: string)
    ensures var dirs := Text.Split(path, ':');
      BinOnPath(fs, Some(path), name).None? <==> forall k :: 0 <= k < |dirs| ==> !Exists(fs, dirs[k] + "/" + name)
    ensures var dirs := Text.Split(path, ':');
      BinOnPath(fs, Some(path), name).Some? ==>
        (exists k :: 0 <= k < |dirs| && BinOnPath(fs, Some(path), name).value == dirs[k] + "/" + name
          && Exists(fs, dirs[k] + "/" + name)
          && forall j :: 0 <= j < k ==> !Exists(fs, dirs[j] + "/" + name))
  {
    FirstExistingOfSpec(fs, Candidates(path, name));
  }

  /** `resolve_bin`: scans the PATH entries in order and returns the first `entry/name` that exists. */
  method ResolveBin(fs: Fs, pathVar: Option<string>, name: string) returns (r: Option<Path>)
    ensures r == BinOnPath(fs, pathVar, name)
  {
    if pathVar.None? {
      return None;
    }
    var dirs := Text.Split(pathVar.value, ':');
    ghost var all := Candidates(pathVar.value, name);
    var i := 0;
    while i < |dirs|
      invariant 0 <= i <= |dirs|
      invariant FirstExistingOf(fs, all[i..]) == FirstExistingOf(fs, all)
    {
      var candidate := dirs[i] + "/" + name;
      assert all[i..][0] == candidate;
      if Exists(fs, candidate) {
        return Some(candidate);
      }
      assert all[i..][1..] == all[i + 1..];
      i := i + 1;
    }
    assert all[i..] == [];
    r := None;
  }

  /** For an ordinary PATH entry (non-empty, not ending in '/') both binaries try the same candidate. */
  lemma CandidateAgreesWithDispatcher(entry: string, name: string)
    requires !IsAbsolute(name) && entry != "" && entry[|entry| - 1] != '/'
    ensures entry + "/" + name == Push(entry, name)
  {
  }

  /** An empty PATH entry: this binary tries "/name" at the root, the dispatcher the relative "name". */
  lemma EmptyEntryDiffers(name: string)
    requires !IsAbsolute(name)
    ensures "" + "/" + name == "/" + name
    ensures Push("", name) == name
  {
    assert "" + name == name;
  }

  /** This binary's `resolve_bin` on a filesystem, as a lookup from program name to binary. */
  function SimpleBinFinder(fs: Fs, pathVar: Option<string>): string -> Option<Path> {
    name => BinOnPath(fs, pathVar, name)
  }

  /** One run of the binary: decide, find the program on PATH, start it or exit. */
  method RunOnce(fs: Fs, cli: SimpleCli, envDir: Option<Path>, home: Path, cloud: string -> bool, pathVar: Option<string>)
    returns (out: Outcome)
    ensures out == Launch(SimpleBinFinder(fs, pathVar), SimpleDecide(fs, cli, envDir, home, cloud))
  {
    var action := SimpleDecide(fs, cli, envDir, home, cloud);
    if !action.Exec? {
      return if action.Exit? then Exited(action.code) else Panicked;
    }
    var bin := ResolveBin(fs, pathVar, ProgramName(action.program));
    if bin.None? {
      return Exited(127);
    }
    out := Spawned(bin.value, action.args);
  }
}
