/**
 * The dispatcher's `main`: one pass from the parsed command line, the
 * filesystem and the oracles to a plan — which weight file to link into the
 * link directory and which program to start, or which exit code to give.
 */
module Dispatch {
  import opened Wrappers
  import opened Paths
  import opened FileSystem
  import Text
  import Layout
  import ModelTag
  import Manifest
  import Links
  import opened Commands

  /** The subcommands whose decisions are modelled. */
  datatype Command =
    | Hf(repo: string, extra: seq<string>)
    | Run(target: string, tag: Option<string>, extra: seq<string>)
    | Simple(model: string, extra: seq<string>)
    | OllamaRun(model: string, extra: seq<string>)
    | Serve(model: string, extra: seq<string>)
    | Cli(model: string, extra: seq<string>)
    | OllamaServe(target: string, extra: seq<string>)
    | OllamaSubServe(target: string, extra: seq<string>)
    | OllamaSubRun(model: string, extra: seq<string>)
    | LlamaSubHf(repo: string, extra: seq<string>)
    | LlamaSubServe(model: string, extra: seq<string>)
    | LlamaSubCli(model: string, extra: seq<string>)

  /** The global flags: `-o`, `-c`, `--link-dir` (or its environment variable), `--force`, `--port`. */
  datatype Options = Options(ollama: bool, llamacpp: bool, linkDir: Option<Path>, force: bool, port: Option<Port>)

  /**
   * What the environment supplies besides the filesystem: the home
   * directory, the manifest parser, the remote-availability probe, the
   * newest cached file of a Hugging Face repository, and whether the link
   * directory could be created.
   */
  datatype Env = Env(
    home: Path,
    parse: seq<byte> -> Option<Manifest.Json>,
    cloud: string -> bool,
    hfCache: string -> Option<Path>,
    modelsDirOk: bool)

  /**
   * The lookups the decision makes: the library blob of `name:tag`, the
   * file the link directory holds for a token, the remote probe, the
   * Hugging Face cache, and the outcome of creating the link directory.
   */
  datatype Lookups = Lookups(
    library: (string, string) -> Option<Path>,
    modelRef: string -> Option<Path>,
    cloud: string -> bool,
    hfCache: string -> Option<Path>,
    modelsDirOk: bool)

  /**
   * The lookups `main` makes on a filesystem: `resolve_ollama_library_gguf`
   * and `resolve_model_ref` (with the `--link-dir` override).
   */
  function Resolvers(fs: Fs, o: Options, env: Env): (l: Lookups)
    ensures l.cloud == env.cloud && l.hfCache == env.hfCache && l.modelsDirOk == env.modelsDirOk
  {
    Lookups((name, tag) => Manifest.LibraryGguf(fs, env.home, env.parse, name, tag),
            model => Links.ResolveModelRef(fs, o.linkDir, env.home, model),
            env.cloud, env.hfCache, env.modelsDirOk)
  }

  /** A link to make: under a given name, or under the source's own file name. */
  datatype LinkRequest = Named(src: Path, name: string) | Basename(src: Path)

  /** The link to make (before the launch, or after it when `linkAfterLaunch`) and the action. */
  datatype Plan = Plan(link: Option<LinkRequest>, action: Action, linkAfterLaunch: bool)

  function NoLink(a: Action): Plan {
    Plan(None, a, false)
  }

  /** A plan that starts llama-server passes it `--port` with the given port as its third and fourth arguments. */
  predicate ServesOnPort(p: Plan, port: Port) {
    p.action.Exec? && p.action.program == LlamaServer ==>
      |p.action.args| >= 4 && p.action.args[2] == "--port" && p.action.args[3] == DecimalString(port)
  }

  /** The llama.cpp family commands refuse to run unless `-c` is given without `-o`. */
  predicate LlamaModeRefused(o: Options) {
    !o.llamacpp || o.ollama
  }

  /** The registry family commands refuse to run unless `-o` is given without `-c`. */
  predicate OllamaModeRefused(o: Options) {
    !o.ollama || o.llamacpp
  }

  /** `resolve_model_ref(model).unwrap_or_else(|| PathBuf::from(model))`. */
  function ModelPath(look: Lookups, model: string): Path {
    look.modelRef(model).GetOr(model)
  }

  /** Link a resolved blob as `<name>-<tag>.gguf`, then serve it with llama-server. */
  function ServeBlob(o: Options, blob: Path, name: string, tag: string, isOllama: bool, extra: seq<string>): Plan {
    Plan(Some(Named(blob, ModelTag.LinkName(name, tag))),
         Exec(LlamaServer, ServerArgs(blob, PortOrDefault(isOllama, o.port), extra)), false)
  }

  function OllamaRunPlan(name: string, tag: string, extra: seq<string>): Plan {
    NoLink(Exec(Ollama, OllamaRunArgs(name, tag, extra)))
  }

  function OllamaPromptPlan(name: string, tag: string, prompt: string): Plan {
    NoLink(Exec(Ollama, OllamaPromptArgs(name, tag, prompt)))
  }

  /** `Hf` and `llama hf`: serve the repository, then link its newest cached file if there is one. */
  function DecideHf(o: Options, look: Lookups, repo: string, extra: seq<string>): (p: Plan)
    ensures p.link.Some? ==> p.action.Exec? && p.action.program == LlamaServer
    ensures ServesOnPort(p, PortOrDefault(false, o.port))
    ensures p.action == Exec(LlamaServer, ServerHfArgs(repo, PortOrDefault(false, o.port), extra))
    ensures p.linkAfterLaunch
    ensures p.link.Some? <==> look.hfCache(repo).Some?
    ensures p.link.Some? ==> p.link.value == Basename(look.hfCache(repo).value)
  {
    Plan(match look.hfCache(repo) case Some(p) => Some(Basename(p)) case None => None,
         Exec(LlamaServer, ServerHfArgs(repo, PortOrDefault(false, o.port), extra)), true)
  }

  /** `Run`: the remote backend for a cloud tag; otherwise a local blob or the remote backend, by whether a tag was typed. */
  function DecideRun(o: Options, look: Lookups, target: string, tag: Option<string>, extra: seq<string>): (p: Plan)
    ensures p.link.Some? ==> p.action.Exec? && p.action.program == LlamaServer
    ensures ServesOnPort(p, PortOrDefault(false, o.port))
  {
    var (name, tagFinal) := ModelTag.NormalizeModelTag(target, tag);
    if ModelTag.IsCloudTag(tagFinal) then OllamaRunPlan(name, tagFinal, extra)
    else if tag.None? then
      match look.library(name, tagFinal)
      case Some(blob) => ServeBlob(o, blob, name, tagFinal, false, extra)
      case None => OllamaRunPlan(name, ModelTag.CloudTag, extra)
    else if look.cloud(name) then OllamaRunPlan(name, ModelTag.CloudTag, extra)
    else
      match look.library(name, tagFinal)
      case Some(blob) => ServeBlob(o, blob, name, tagFinal, false, extra)
      case None => NoLink(Exit(1))
  }

  /** The prompt asks for speech or audio, which only the remote backend serves. */
  predicate WantsAudio(prompt: string) {
    var lower := Text.Lower(prompt);
    Text.Contains(lower, "tts") || Text.Contains(lower, "audio")
  }

  /** `Simple`: a one-shot prompt, on llama-cli when a local file is found, else on the remote backend. */
  function DecideSimple(o: Options, look: Lookups, model: string, extra: seq<string>): (p: Plan)
    ensures p.link.None? && !p.linkAfterLaunch
    ensures p.action.Exec? ==> p.action.program in {LlamaCli, Ollama}
  {
    var prompt := Prompt(extra);
    if prompt == "" then NoLink(Exit(2))
    else if WantsAudio(prompt) then
      if ':' in model then
        var (name, tag) := ModelTag.SplitModelTag(model);
        OllamaPromptPlan(name, tag, prompt)
      else OllamaPromptPlan(model, ModelTag.CloudTag, prompt)
    else if ':' in model then
      var (name, tag) := ModelTag.SplitModelTag(model);
      if ModelTag.IsCloudTag(tag) then OllamaPromptPlan(name, tag, prompt)
      else match look.library(name, tag)
        case Some(blob) => NoLink(Exec(LlamaCli, CliPromptArgs(blob, prompt)))
        case None =>
          if look.cloud(name) then OllamaPromptPlan(name, ModelTag.CloudTag, prompt)
          else NoLink(Exit(1))
    else match look.modelRef(model)
      case Some(p) => NoLink(Exec(LlamaCli, CliPromptArgs(p, prompt)))
      case None =>
        if look.cloud(model) then OllamaPromptPlan(model, ModelTag.CloudTag, prompt)
        else NoLink(Exit(1))
  }

  /** `OllamaRun` and `ollama run`: serve the library blob of `name:tag` with llama-server, or exit 1. */
  function DecideOllamaRun(o: Options, look: Lookups, model: string, extra: seq<string>): (p: Plan)
    ensures p.link.Some? ==> p.action.Exec? && p.action.program == LlamaServer
    ensures ServesOnPort(p, PortOrDefault(true, o.port))
  {
    var (name, tag) := ModelTag.SplitModelTag(model);
    match look.library(name, tag)
    case Some(blob) => ServeBlob(o, blob, name, tag, true, extra)
    case None => NoLink(Exit(1))
  }

  /** `OllamaServe` and `ollama serve`: a `name:tag` goes through the library, anything else through the link directory. */
  function DecideOllamaServe(o: Options, look: Lookups, target: string, extra: seq<string>): (p: Plan)
    ensures p.link.Some? ==> p.action.Exec? && p.action.program == LlamaServer
    ensures ServesOnPort(p, PortOrDefault(true, o.port))
  {
    var port := PortOrDefault(true, o.port);
    if ':' in target then
      var (name, tag) := ModelTag.SplitModelTag(target);
      match look.library(name, tag)
      case Some(blob) => ServeBlob(o, blob, name, tag, true, extra)
      case None => NoLink(Exit(1))
    else NoLink(Exec(LlamaServer, ServerArgs(ModelPath(look, target), port, extra)))
  }

  /** `Serve` and `llama serve`: llama-server on the resolved file, or on the token itself. */
  function DecideServe(o: Options, look: Lookups, model: string, extra: seq<string>): (p: Plan)
    ensures ServesOnPort(p, PortOrDefault(false, o.port))
  {
    NoLink(Exec(LlamaServer, ServerArgs(ModelPath(look, model), PortOrDefault(false, o.port), extra)))
  }

  /** `Cli` and `llama cli`: llama-cli on the resolved file, or on the token itself. */
  function DecideCli(o: Options, look: Lookups, model: string, extra: seq<string>): (p: Plan)
    ensures p.link.None? && p.action.Exec? && p.action.program == LlamaCli
    ensures ReadCliArgs(p.action.args) == Some((ModelPath(look, model), extra))
  {
    CliArgsRoundTrip(ModelPath(look, model), extra, "");
    NoLink(Exec(LlamaCli, CliArgs(ModelPath(look, model), extra)))
  }

  /**
   * The dispatch of `main`: every modelled command first creates the link
   * directory (a failure panics), then applies its family's mode guard, if
   * it has one, then its own decision.
   */
  function Decide(o: Options, look: Lookups, cmd: Command): (p: Plan)
    ensures !look.modelsDirOk ==> p == NoLink(Panic)
    ensures p.link.Some? ==> p.action.Exec? && p.action.program == LlamaServer
  {
    if !look.modelsDirOk then NoLink(Panic)
    else match cmd
      case Hf(repo, extra) => if LlamaModeRefused(o) then NoLink(Exit(2)) else DecideHf(o, look, repo, extra)
      case Run(target, tag, extra) => DecideRun(o, look, target, tag, extra)
      case Simple(model, extra) => DecideSimple(o, look, model, extra)
      case OllamaRun(model, extra) => if OllamaModeRefused(o) then NoLink(Exit(2)) else DecideOllamaRun(o, look, model, extra)
      case Serve(model, extra) => if LlamaModeRefused(o) then NoLink(Exit(2)) else DecideServe(o, look, model, extra)
      case Cli(model, extra) => if LlamaModeRefused(o) then NoLink(Exit(2)) else DecideCli(o, look, model, extra)
      case OllamaServe(target, extra) =>
        if OllamaModeRefused(o) then NoLink(Exit(2)) else DecideOllamaServe(o, look, target, extra)
      case OllamaSubServe(target, extra) => DecideOllamaServe(o, look, target, extra)
      case OllamaSubRun(model, extra) => DecideOllamaRun(o, look, model, extra)
      case LlamaSubHf(repo, extra) => DecideHf(o, look, repo, extra)
      case LlamaSubServe(model, extra) => DecideServe(o, look, model, extra)
      case LlamaSubCli(model, extra) => DecideCli(o, look, model, extra)
  }

  /** Where a link request puts its link. */
  function LinkDestination(o: Options, env: Env, req: LinkRequest): Path
    requires req.Basename? ==> FileName(req.src).Some?
  {
    var dir := Layout.ModelsDirWith(o.linkDir, env.home);
    match req
    case Named(_, name) => Push(dir, name)
    case Basename(src) => Push(dir, FileName(src).value)
  }

  /**
   * Carries out a plan: make its link (the result is discarded with
   * `.ok()`) before the launch, or, when the plan says so, only after a
   * successful spawn. The outcome never depends on whether the link was made.
   */
  method Execute(store: Links.LinkStore, o: Options, env: Env, plan: Plan, pathVar: Option<string>,
                 symlinkOk: bool, copyOk: bool)
    returns (out: Outcome)
    requires plan.link.Some? && plan.link.value.Basename? ==> FileName(plan.link.value.src).Some?
    modifies store
    ensures
      if plan.link.None? then
        store.nodes == old(store.nodes) && out == Launch(BinFinder(old(store.nodes), pathVar), plan.action)
      else
        var linked := Links.Materialize(old(store.nodes), plan.link.value.src,
          LinkDestination(o, env, plan.link.value), o.force, symlinkOk, copyOk).0;
        if !plan.linkAfterLaunch then
          store.nodes == linked && out == Launch(BinFinder(linked, pathVar), plan.action)
        else
          out == Launch(BinFinder(old(store.nodes), pathVar), plan.action)
          && store.nodes == (if out.Spawned? then linked else old(store.nodes))
  {
    if plan.link.Some? && !plan.linkAfterLaunch {
      var req := plan.link.value;
      var dst := LinkDestination(o, env, req);
      var _ := store.LinkAt(req.src, dst, o.force, symlinkOk, copyOk);
    }
    out := Launch(BinFinder(store.nodes, pathVar), plan.action);
    if plan.link.Some? && plan.linkAfterLaunch && out.Spawned? {
      var req := plan.link.value;
      var dst := LinkDestination(o, env, req);
      var _ := store.LinkAt(req.src, dst, o.force, symlinkOk, copyOk);
    }
  }

  /** One invocation: decide on the current filesystem, then carry out the plan. */
  method Dispatch(store: Links.LinkStore, o: Options, env: Env, cmd: Command, pathVar: Option<string>,
                  symlinkOk: bool, copyOk: bool)
    returns (out: Outcome)
    requires var p := Decide(o, Resolvers(store.nodes, o, env), cmd);
      p.link.Some? && p.link.value.Basename? ==> FileName(p.link.value.src).Some?
    modifies store
    ensures var p := Decide(o, Resolvers(old(store.nodes), o, env), cmd);
      if p.link.None? then
        store.nodes == old(store.nodes) && out == Launch(BinFinder(old(store.nodes), pathVar), p.action)
      else
        var linked := Links.Materialize(old(store.nodes), p.link.value.src,
          LinkDestination(o, env, p.link.value), o.force, symlinkOk, copyOk).0;
        if !p.linkAfterLaunch then
          store.nodes == linked && out == Launch(BinFinder(linked, pathVar), p.action)
        else
          out == Launch(BinFinder(old(store.nodes), pathVar), p.action)
          && store.nodes == (if out.Spawned? then linked else old(store.nodes))
  {
    var plan := Decide(o, Resolvers(store.nodes, o, env), cmd);
    out := Execute(store, o, env, plan, pathVar, symlinkOk, copyOk);
  }

  // ---- Properties of the decision ----

  lemma QualifiedCloud(name: string)
    ensures ModelTag.Qualified(name, ModelTag.CloudTag) == name + ":cloud"
  {
  }

  /**
   * The mode guards: with the link directory in place, a llama.cpp family
   * command without `-c` (or with `-o`) and a registry family command
   * without `-o` (or with `-c`) exit 2 whatever the filesystem and oracles.
   */
  lemma ModeGuardsExit2(o: Options, look: Lookups, cmd: Command)
    requires look.modelsDirOk
    requires ((cmd.Hf? || cmd.Serve? || cmd.Cli?) && LlamaModeRefused(o))
      || ((cmd.OllamaRun? || cmd.OllamaServe?) && OllamaModeRefused(o))
    ensures Decide(o, look, cmd) == NoLink(Exit(2))
  {
  }

  /** A cloud tag, in any case, goes to `ollama run name:tag` with no probe and no local lookup. */
  lemma RunCloudTag(o: Options, look: Lookups, target: string, tag: Option<string>, extra: seq<string>)
    requires look.modelsDirOk
    requires ModelTag.IsCloudTag(ModelTag.NormalizeModelTag(target, tag).1)
    ensures var (name, t) := ModelTag.NormalizeModelTag(target, tag);
      Decide(o, look, Run(target, tag, extra)) == NoLink(Exec(Ollama, OllamaRunArgs(name, t, extra)))
  {
  }

  /**
   * `Run` without a separate tag argument (even for `name:tag` tokens): a
   * library blob is linked as `<name>-<tag>.gguf` and served on the llama
   * default port unless one is given; otherwise `ollama run name:cloud`.
   * The remote probe is never consulted.
   */
  lemma RunImplicitTag(o: Options, look: Lookups, target: string, extra: seq<string>)
    requires look.modelsDirOk
    requires !ModelTag.IsCloudTag(ModelTag.SplitModelTag(target).1)
    ensures var (name, tag) := ModelTag.SplitModelTag(target);
      Decide(o, look, Run(target, None, extra)) ==
        match look.library(name, tag)
        case Some(blob) =>
          Plan(Some(Named(blob, name + "-" + tag + ".gguf")),
               Exec(LlamaServer, ["-m", blob, "--port", DecimalString(PortOrDefault(false, o.port))] + extra), false)
        case None => NoLink(Exec(Ollama, ["run", name + ":cloud"] + extra))
    ensures forall c :: Decide(o, look, Run(target, None, extra)) == Decide(o, look.(cloud := c), Run(target, None, extra))
  {
    ModelTag.NormalizeWithoutTagIsSplit(target);
    QualifiedCloud(ModelTag.SplitModelTag(target).0);
  }

  /**
   * `Run` with a separate tag argument that, once normalised against the
   * target, is not a cloud tag: the remote copy wins when the probe finds
   * it; otherwise the library blob is linked and served; otherwise exit 1.
   */
  lemma RunExplicitTag(o: Options, look: Lookups, target: string, tag: string, extra: seq<string>)
    requires look.modelsDirOk
    requires !ModelTag.IsCloudTag(ModelTag.NormalizeModelTag(target, Some(tag)).1)
    ensures var (name, t) := ModelTag.NormalizeModelTag(target, Some(tag));
      Decide(o, look, Run(target, Some(tag), extra)) ==
        if look.cloud(name) then NoLink(Exec(Ollama, OllamaRunArgs(name, ModelTag.CloudTag, extra)))
        else match look.library(name, t)
          case Some(blob) => ServeBlob(o, blob, name, t, false, extra)
          case None => NoLink(Exit(1))
  {
  }

  /**
   * `ggufy run mistral` when the library has no blob for `mistral:latest`
   * starts `ollama run mistral:cloud`; it does not exit 1, and the remote
   * probe plays no part.
   */
  lemma UntaggedRunFallsBackToCloud(o: Options, look: Lookups, extra: seq<string>)
    requires look.modelsDirOk && look.library("mistral", "latest").None?
    ensures Decide(o, look, Run("mistral", None, extra)) == NoLink(Exec(Ollama, ["run", "mistral:cloud"] + extra))
  {
    assert !ModelTag.IsCloudTag("latest") by {
      assert Text.Lower("latest")[0] == 'l' && Text.Lower(ModelTag.CloudTag)[0] == 'c';
    }
    assert ':' !in "mistral";
    RunImplicitTag(o, look, "mistral", extra);
    assert "mistral" + ":cloud" == "mistral:cloud";
  }

  /** On a filesystem: with no manifest for `mistral:latest`, `ggufy run mistral` goes to `mistral:cloud`. */
  lemma NoManifestRunsCloud(fs: Fs, o: Options, env: Env, extra: seq<string>)
    requires env.modelsDirOk
    requires !Exists(fs, Manifest.ManifestPath(env.home, "mistral", "latest"))
    ensures Decide(o, Resolvers(fs, o, env), Run("mistral", None, extra)) == NoLink(Exec(Ollama, ["run", "mistral:cloud"] + extra))
  {
    Manifest.LibraryGgufNone(fs, env.home, env.parse, "mistral", "latest");
    UntaggedRunFallsBackToCloud(o, Resolvers(fs, o, env), extra);
  }

  /** `Simple` exits 2 exactly when the joined prompt is empty (no words, or only empty ones). */
  lemma SimpleEmptyPrompt(o: Options, look: Lookups, model: string, extra: seq<string>)
    requires look.modelsDirOk
    ensures Decide(o, look, Simple(model, extra)).action == Exit(2) <==> Prompt(extra) == ""
  {
  }

  /**
   * A prompt mentioning "tts" or "audio" in any ASCII case always goes to
   * the remote backend, whatever is on disk and whatever the probe says;
   * an untagged model is asked for as `model:cloud`.
   */
  lemma SimpleAudioGoesRemote(o: Options, look: Lookups, model: string, extra: seq<string>)
    requires look.modelsDirOk
    requires Prompt(extra) != "" && WantsAudio(Prompt(extra))
    ensures var p := Decide(o, look, Simple(model, extra));
      && p.link.None?
      && p.action.Exec? && p.action.program == Ollama
      && p.action.args[0] == "run" && p.action.args[2] == Prompt(extra)
      && p.action.args[1] == (if ':' in model then model[..|ModelTag.SplitModelTag(model).0|] + ":" + ModelTag.SplitModelTag(model).1
                              else model + ":cloud")
  {
    if ':' in model {
      ModelTag.SplitModelTagParts(model);
    }
  }

  /** The end-to-end case: a "TTS" prompt is sent to the remote backend even with a matching file in the link directory. */
  lemma TtsPromptIgnoresLocalFile(o: Options, look: Lookups, model: string)
    requires look.modelsDirOk && ':' !in model
    requires look.modelRef(model).Some?
    ensures Decide(o, look, Simple(model, ["read", "this", "with", "TTS"])).action
      == Exec(Ollama, ["run", model + ":cloud", "read this with TTS"])
  {
    var extra := ["read", "this", "with", "TTS"];
    var prompt := "read this with TTS";
    assert Prompt(extra) == prompt by {
      assert extra[1..] == ["this", "with", "TTS"];
      assert extra[1..][1..] == ["with", "TTS"];
      assert extra[1..][1..][1..] == ["TTS"];
    }
    var lower := Text.Lower(prompt);
    assert lower[15..18] == "tts";
    Text.ContainsAt(lower, "tts", 15);
    QualifiedCloud(model);
  }

  /**
   * `Simple` for a `name:tag` token with a non-cloud tag and a non-audio
   * prompt: llama-cli on the library blob, else the remote copy if the probe
   * finds one, else exit 1. Nothing is linked.
   */
  lemma SimpleTagged(o: Options, look: Lookups, model: string, extra: seq<string>)
    requires look.modelsDirOk && ':' in model
    requires Prompt(extra) != "" && !WantsAudio(Prompt(extra))
    requires !ModelTag.IsCloudTag(ModelTag.SplitModelTag(model).1)
    ensures var (name, tag) := ModelTag.SplitModelTag(model);
      Decide(o, look, Simple(model, extra)) ==
        match look.library(name, tag)
        case Some(blob) => NoLink(Exec(LlamaCli, ["-m", blob, "-p", Prompt(extra), "-no-cnv"]))
        case None => if look.cloud(name) then NoLink(Exec(Ollama, ["run", name + ":cloud", Prompt(extra)])) else NoLink(Exit(1))
  {
    QualifiedCloud(ModelTag.SplitModelTag(model).0);
  }

  /**
   * `Simple` for a bare token and a non-audio prompt: llama-cli on the file
   * the link directory holds for it, else the remote copy, else exit 1.
   */
  lemma SimpleBare(o: Options, look: Lookups, model: string, extra: seq<string>)
    requires look.modelsDirOk && ':' !in model
    requires Prompt(extra) != "" && !WantsAudio(Prompt(extra))
    ensures Decide(o, look, Simple(model, extra)) ==
      match look.modelRef(model)
      case Some(p) => NoLink(Exec(LlamaCli, ["-m", p, "-p", Prompt(extra), "-no-cnv"]))
      case None => if look.cloud(model) then NoLink(Exec(Ollama, ["run", model + ":cloud", Prompt(extra)])) else NoLink(Exit(1))
  {
    QualifiedCloud(model);
  }

  /**
   * `OllamaRun` (in `-o` mode) and `ollama run`: the library blob of the
   * split token is linked and served on the registry's default port unless
   * one is given; without one, exit 1.
   */
  lemma OllamaRunServesLibraryBlob(o: Options, look: Lookups, model: string, extra: seq<string>, sub: bool)
    requires look.modelsDirOk && (sub || !OllamaModeRefused(o))
    ensures var (name, tag) := ModelTag.SplitModelTag(model);
      var cmd := if sub then OllamaSubRun(model, extra) else OllamaRun(model, extra);
      Decide(o, look, cmd) ==
        match look.library(name, tag)
        case Some(blob) =>
          Plan(Some(Named(blob, name + "-" + tag + ".gguf")),
               Exec(LlamaServer, ["-m", blob, "--port", DecimalString(PortOrDefault(true, o.port))] + extra), false)
        case None => NoLink(Exit(1))
  {
  }

  /**
   * `OllamaServe` (in `-o` mode) and `ollama serve`: a token with ':' is
   * served from the library or exits 1; any other token is served from the
   * link directory, or as given when nothing there matches.
   */
  lemma OllamaServeCases(o: Options, look: Lookups, target: string, extra: seq<string>, sub: bool)
    requires look.modelsDirOk && (sub || !OllamaModeRefused(o))
    ensures var cmd := if sub then OllamaSubServe(target, extra) else OllamaServe(target, extra);
      var port := PortOrDefault(true, o.port);
      ':' !in target ==>
        Decide(o, look, cmd) == NoLink(Exec(LlamaServer, ["-m", ModelPath(look, target), "--port", DecimalString(port)] + extra))
    ensures var cmd := if sub then OllamaSubServe(target, extra) else OllamaServe(target, extra);
      ':' in target ==>
        Decide(o, look, cmd) == DecideOllamaRun(o, look, target, extra)
  {
  }

  /** `Serve` and `Cli` use the file the link directory holds for the token, and the token itself otherwise. */
  lemma ServeAndCliTarget(o: Options, look: Lookups, model: string, extra: seq<string>)
    requires look.modelsDirOk && !LlamaModeRefused(o)
    ensures var path := ModelPath(look, model);
      && Decide(o, look, Serve(model, extra)) == NoLink(Exec(LlamaServer, ServerArgs(path, PortOrDefault(false, o.port), extra)))
      && Decide(o, look, Cli(model, extra)) == NoLink(Exec(LlamaCli, ["-m", path] + extra))
  {
  }

  /** On a filesystem, the path handed to Serve and Cli is either the token itself or an existing file. */
  lemma ModelPathExistsOrToken(fs: Fs, o: Options, env: Env, model: string)
    ensures var path := ModelPath(Resolvers(fs, o, env), model);
      path == model || Exists(fs, path)
  {
  }

  /**
   * Which default port a served model gets: the registry family's 11434 for
   * `OllamaRun`, `OllamaServe` and the `ollama` subcommands, llama.cpp's
   * 12434 for everything else.
   */
  lemma DefaultPorts(o: Options, look: Lookups, cmd: Command)
    requires o.port.None?
    requires Decide(o, look, cmd).action.Exec? && Decide(o, look, cmd).action.program == LlamaServer
    ensures var args := Decide(o, look, cmd).action.args;
      |args| >= 4 && args[2] == "--port" &&
      args[3] == DecimalString(if cmd.OllamaRun? || cmd.OllamaServe? || cmd.OllamaSubRun? || cmd.OllamaSubServe? then 11434 else 12434)
  {
    var p := Decide(o, look, cmd);
    if cmd.OllamaRun? || cmd.OllamaServe? || cmd.OllamaSubRun? || cmd.OllamaSubServe? {
      assert ServesOnPort(p, PortOrDefault(true, o.port));
    } else {
      assert ServesOnPort(p, PortOrDefault(false, o.port));
    }
  }
}
