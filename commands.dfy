/**
 * The child processes the dispatcher starts: which program, with which
 * argument vector, and how the program is found on PATH.
 */
module Commands {
  import opened Wrappers
  import opened Paths
  import opened FileSystem
  import Text
  import ModelTag

  /** A TCP port, Rust's `u16`. */
  type Port = p: int | 0 <= p < 0x1_0000

  const OllamaDefaultPort: Port := 11434
  const LlamaDefaultPort: Port := 12434

  /** `port_or_default`: an explicit port wins; otherwise the family's own default. */
  function PortOrDefault(isOllama: bool, requested: Option<Port>): (p: Port)
    ensures requested.Some? ==> p == requested.value
    ensures requested.None? && isOllama ==> p == OllamaDefaultPort
    ensures requested.None? && !isOllama ==> p == LlamaDefaultPort
  {
    match requested
    case Some(q) => q
    case None => if isOllama then 11434 else 12434
  }

  predicate IsDigit(c: char) {
    '0' <= c <= '9'
  }

  /** The decimal text `n.to_string()`: digits only, no leading zero. */
  function DecimalString(n: nat): (s: string)
    ensures |s| >= 1 && forall k :: 0 <= k < |s| ==> IsDigit(s[k])
    ensures s[0] == '0' ==> n == 0
  {
    var d := ['0' + (n % 10) as char];
    if n < 10 then d else DecimalString(n / 10) + d
  }

  /** The number a string of decimal digits denotes. */
  function DecimalValue(s: string): nat
    requires forall k :: 0 <= k < |s| ==> IsDigit(s[k])
  {
    if s == [] then 0
    else
      assert IsDigit(s[|s| - 1]);
      DecimalValue(s[..|s| - 1]) * 10 + (s[|s| - 1] as int - '0' as int)
  }

  /** Reading the decimal text back gives the number. */
  lemma {:induction false} DecimalRoundTrip(n: nat)
    ensures DecimalValue(DecimalString(n)) == n
  {
    var s := DecimalString(n);
    if n >= 10 {
      DecimalRoundTrip(n / 10);
      assert s[..|s| - 1] == DecimalString(n / 10);
    }
  }

  /** The external programs. */
  datatype Program = LlamaServer | LlamaCli | Ollama

  function ProgramName(p: Program): string {
    match p
    case LlamaServer => "llama-server"
    case LlamaCli => "llama-cli"
    case Ollama => "ollama"
  }

  /** What the dispatcher decides to do: start a program with an argument vector, exit, or panic. */
  datatype Action =
    | Exec(program: Program, args: seq<string>)
    | Exit(code: int)
    | Panic

  /** `run_llama_server_model`: `-m <model> --port <port>` followed by the pass-through arguments. */
  function ServerArgs(model: Path, port: Port, extra: seq<string>): seq<string> {
    ["-m", model, "--port", DecimalString(port)] + extra
  }

  /** `run_llama_server_hf`: `-hf <repo> --port <port>` followed by the pass-through arguments. */
  function ServerHfArgs(repo: string, port: Port, extra: seq<string>): seq<string> {
    ["-hf", repo, "--port", DecimalString(port)] + extra
  }

  /** `run_llama_cli_model`: `-m <model>` followed by the pass-through arguments. */
  function CliArgs(model: Path, extra: seq<string>): seq<string> {
    ["-m", model] + extra
  }

  /** The one-shot prompt run of llama-cli, without conversation mode. */
  function CliPromptArgs(model: Path, prompt: string): seq<string> {
    ["-m", model, "-p", prompt, "-no-cnv"]
  }

  /** `run_ollama_run`: `run <name>:<tag>` followed by the pass-through arguments. */
  function OllamaRunArgs(name: string, tag: string, extra: seq<string>): seq<string> {
    ["run", ModelTag.Qualified(name, tag)] + extra
  }

  /** `run_ollama_simple`: `run <name>:<tag> <prompt>`. */
  function OllamaPromptArgs(name: string, tag: string, prompt: string): seq<string> {
    ["run", ModelTag.Qualified(name, tag), prompt]
  }

  /** The one-shot prompt: the trailing words joined by single spaces, empty when there are none. */
  function Prompt(words: seq<string>): string {
    if words == [] then "" else Text.Join(words, ' ')
  }

  /** How llama-server reads an argument vector of the shape above: model, port and the rest. */
  function ReadServerArgs(args: seq<string>): Option<(Path, nat, seq<string>)> {
    if |args| >= 4 && args[0] == "-m" && args[2] == "--port"
      && forall k :: 0 <= k < |args[3]| ==> IsDigit(args[3][k])
    then Some((args[1], DecimalValue(args[3]), args[4..]))
    else None
  }

  /** llama-server receives exactly the model, the port and the pass-through arguments. */
  lemma ServerArgsRoundTrip(model: Path, port: Port, extra: seq<string>)
    ensures ReadServerArgs(ServerArgs(model, port, extra)) == Some((model, port as nat, extra))
  {
    var args := ServerArgs(model, port, extra);
    assert args[3] == DecimalString(port);
    DecimalRoundTrip(port);
    assert args[4..] == extra;
  }

  /** How llama-server reads `-hf <repo> --port <port> ...`: repository, port and the rest. */
  function ReadServerHfArgs(args: seq<string>): Option<(string, nat, seq<string>)> {
    if |args| >= 4 && args[0] == "-hf" && args[2] == "--port"
      && forall k :: 0 <= k < |args[3]| ==> IsDigit(args[3][k])
    then Some((args[1], DecimalValue(args[3]), args[4..]))
    else None
  }

  /** llama-server receives exactly the repository, the port and the pass-through arguments. */
  lemma ServerHfArgsRoundTrip(repo: string, port: Port, extra: seq<string>)
    ensures ReadServerHfArgs(ServerHfArgs(repo, port, extra)) == Some((repo, port as nat, extra))
  {
    var args := ServerHfArgs(repo, port, extra);
    assert args[3] == DecimalString(port);
    DecimalRoundTrip(port);
    assert args[4..] == extra;
  }

  /** How llama-cli reads `-m <model> ...`: the model and the rest. */
  function ReadCliArgs(args: seq<string>): Option<(Path, seq<string>)> {
    if |args| >= 2 && args[0] == "-m" then Some((args[1], args[2..])) else None
  }

  /**
   * llama-cli receives the model, then the pass-through arguments, or the
   * prompt after `-p` with conversation mode turned off.
   */
  lemma CliArgsRoundTrip(model: Path, extra: seq<string>, prompt: string)
    ensures ReadCliArgs(CliArgs(model, extra)) == Some((model, extra))
    ensures ReadCliArgs(CliPromptArgs(model, prompt)) == Some((model, ["-p", prompt, "-no-cnv"]))
  {
    assert CliArgs(model, extra)[2..] == extra;
  }

  /** The prompt is empty only for no words or one empty word; words without spaces split back out of it. */
  lemma PromptWords(words: seq<string>)
    ensures Prompt(words) == "" <==> words == [] || words == [""]
    ensures words != [] && (forall k :: 0 <= k < |words| ==> ' ' !in words[k]) ==>
      Text.Split(Prompt(words), ' ') == words
  {
    if |words| >= 2 {
      assert Prompt(words) == words[0] + [' '] + Text.Join(words[1..], ' ');
    }
    if words != [] && (forall k :: 0 <= k < |words| ==> ' ' !in words[k]) {
      Text.SplitJoin(words, ' ');
    }
  }

  /** How ollama reads `run <ref> ...`: the reference split into name and tag, and the rest. */
  function ReadOllamaRun(args: seq<string>): Option<(string, string, seq<string>)> {
    if |args| >= 2 && args[0] == "run" then
      var (name, tag) := ModelTag.SplitModelTag(args[1]);
      Some((name, tag, args[2..]))
    else None
  }

  /**
   * ollama receives the intended name and tag when neither contains ':'
   * (the dispatcher's own names never do, since they come from a split on
   * ':' or are the constant "cloud"), then the pass-through arguments.
   */
  lemma OllamaArgsRoundTrip(name: string, tag: string, extra: seq<string>, prompt: string)
    requires ':' !in name && ':' !in tag
    ensures ReadOllamaRun(OllamaRunArgs(name, tag, extra)) == Some((name, tag, extra))
    ensures ReadOllamaRun(OllamaPromptArgs(name, tag, prompt)) == Some((name, tag, [prompt]))
  {
    ModelTag.QualifiedRoundTrip(name, tag);
    assert OllamaRunArgs(name, tag, extra)[2..] == extra;
  }

  /** The PATH lookup candidates of `resolve_bin`: each PATH entry with the program name pushed on. */
  function BinCandidates(pathVar: string, name: string): (c: seq<Path>)
    ensures |c| == |Text.Split(pathVar, ':')|
    ensures forall k :: 0 <= k < |c| ==> c[k] == Push(Text.Split(pathVar, ':')[k], name)
  {
    var dirs := Text.Split(pathVar, ':');
    seq(|dirs|, k requires 0 <= k < |dirs| => Push(dirs[k], name))
  }

  /** Where `resolve_bin` finds a program: nowhere without PATH, else the first candidate that exists. */
  function BinOnPath(fs: Fs, pathVar: Option<string>, name: string): Option<Path> {
    match pathVar
    case None => None
    case Some(path) => FirstExistingOf(fs, BinCandidates(path, name))
  }

  /** The PATH scan is the first existing candidate: none earlier exists, and none at all when it fails. */
  lemma BinOnPathSpec(fs: Fs, path: string, name: string)
    ensures var dirs := Text.Split(path, ':');
      BinOnPath(fs, Some(path), name).None? <==> forall k :: 0 <= k < |dirs| ==> !Exists(fs, Push(dirs[k], name))
    ensures var dirs := Text.Split(path, ':');
      BinOnPath(fs, Some(path), name).Some? ==>
        (exists k :: 0 <= k < |dirs| && BinOnPath(fs, Some(path), name).value == Push(dirs[k], name)
          && Exists(fs, Push(dirs[k], name))
          && forall j :: 0 <= j < k ==> !Exists(fs, Push(dirs[j], name)))
  {
    FirstExistingOfSpec(fs, BinCandidates(path, name));
  }

  /**
   * `resolve_bin` on Unix: splits PATH on ':' and returns the first entry
   * with the program name pushed on that exists.
   */
  method ResolveBin(fs: Fs, pathVar: Option<string>, name: string) returns (r: Option<Path>)
    ensures r == BinOnPath(fs, pathVar, name)
  {
    if pathVar.None? {
      return None;
    }
    var dirs := Text.Split(pathVar.value, ':');
    ghost var all := BinCandidates(pathVar.value, name);
    var i := 0;
    while i < |dirs|
      invariant 0 <= i <= |dirs|
      invariant FirstExistingOf(fs, all[i..]) == FirstExistingOf(fs, all)
    {
      var candidate := Push(dirs[i], name);
      assert all[i..][0] == candidate;
      if Exists(fs, candidate) {
        return Some(candidate);
      }
      assert all[i..][1..] == all[i + 1..];
      i := i + 1;
    }
    assert all[i..] == [];
    r := None;
  }

  /** What comes of an action: a started process, an exit code, or a panic. */
  datatype Outcome = Spawned(bin: Path, args: seq<string>) | Exited(code: int) | Panicked

  /** The dispatcher's `resolve_bin` on a filesystem, as a lookup from program name to binary. */
  function BinFinder(fs: Fs, pathVar: Option<string>): string -> Option<Path> {
    name => BinOnPath(fs, pathVar, name)
  }

  /**
   * Starting a program, shared by both binaries with their own `PATH` scan
   * `find`: a program not found exits with 127; otherwise the argv is
   * passed unchanged.
   */
  function Launch(find: string -> Option<Path>, action: Action): (o: Outcome)
    ensures action.Exec? && find(ProgramName(action.program)).None? ==> o == Exited(127)
    ensures o.Spawned? ==>
      (action.Exec? && o.args == action.args && find(ProgramName(action.program)) == Some(o.bin))
    ensures action.Exit? ==> o == Exited(action.code)
    ensures o.Panicked? <==> action.Panic?
  {
    match action
    case Exec(program, args) =>
      (match find(ProgramName(program))
       case None => Exited(127)
       case Some(bin) => Spawned(bin, args))
    case Exit(code) => Exited(code)
    case Panic => Panicked
  }
}
