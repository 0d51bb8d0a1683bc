# ggufy: model resolution and backend selection, in Dafny

ggufy is a command-line front end that manages GGUF weight files between
two local runtimes:

- llama.cpp, whose programs are `llama-server` and `llama-cli`;
- the Ollama registry and runtime, whose program is `ollama`.

It finds a weight file for a model token such as `mistral`, `qwen:7b` or
`llama3.2`. The file can come from three places:

- the Ollama library, through a manifest and its content-addressed blobs;
- the tool's own link directory, `~/.guffy/models` or the `--link-dir` / `GGUFY_MODELS_DIR` override;
- the Hugging Face cache.

It links or copies that file into the link directory under a stable name. It
then starts the right program with the right argument vector, or falls back
to the remote `name:cloud` variant. A second binary, `ggufy-simple`, does the
one-shot prompt part on its own.

This project models the deterministic part of both binaries, and proves what
each step promises.

- The filesystem is a map from path to node (a regular file with its bytes,
  or a symbolic link with its target). Symbolic links are followed for at
  most 40 hops, and a relative target is read from the directory that holds
  the link, as the kernel reads it.
- Everything else the program asks of the world is an input:
  - the JSON manifest parser;
  - the remote-availability probe (`ollama show`);
  - the newest Hugging Face cache entry;
  - the success of creating the link directory;
  - the success of a symbolic link or of a copy;
  - the `PATH` variable.

Modules, one concept each:

| file | module | what it holds |
|---|---|---|
| `wrappers.dfy` | `Wrappers` | `Option`, `Result` |
| `text.dfy` | `Text` | the string operations used: `split`, `join`, ASCII lower-casing, `contains`, `replace` |
| `paths.dfy` | `Paths` | `PathBuf::push`, `file_name`, `extension` and `set_extension` on Unix paths |
| `filesystem.dfy` | `FileSystem` | nodes, link following, sizes, the GGUF magic sniff |
| `filesystem.dfy` | `Layout` | the link directory, the blob store and the manifest directory |
| `tokens.dfy` | `ModelTag` | `split_model_tag`, `normalize_model_tag`, the stable link name `name-tag.gguf` |
| `manifest.dfy` | `Manifest` | digest collection over a JSON tree (as recursive methods that append to the output), the stable sort by size followed by `pop`, and the library resolver as a method with its loop |
| `links.dfy` | `Links` | the link materializer: a class `LinkStore` whose `nodes` map the methods update (remove, link, copy), specified by the function `Materialize`; and the reference resolver `resolve_model_ref` |
| `commands.dfy` | `Commands` | ports, the argument vectors of every program the tool starts, how those vectors read back, and the `PATH` scan |
| `dispatch.dfy` | `Dispatch` | the dispatcher's `main`: one decision function per command family, over abstract lookups; a method that carries out a plan, making the link and launching |
| `simple.dfy` | `SimpleBin` | the `ggufy-simple` binary: its own link path rule, decision tree, `PATH` scan and run |

The decisions are pure functions from the command, the flags and the lookup
results to a `Plan`. A plan holds the link to make, if any, and an `Action`:
start a program with an argument vector, exit with a code, or panic. The
`Dispatch` method decides, then `Execute` runs the plan against a `LinkStore`.

Where the design description and the code disagree, the model follows the code:

- **Untagged `run` falls back to the cloud copy.** `ggufy run mistral` with no
  library blob for `mistral:latest` does not exit 1. With no tag typed, the
  code never consults the probe and starts `ollama run mistral:cloud`
  (src/main.rs:144-164). `Dispatch.UntaggedRunFallsBackToCloud` and
  `Dispatch.NoManifestRunsCloud` state this.
- **A dangling link survives `--force`.** `exists()` follows the link and
  reports nothing there, so the forced removal is skipped. The symbolic link
  then fails on the occupied name. The copy writes through the dangling
  link, creating its target, and the link itself stays
  (`Links.DanglingLinkWrittenThrough`).
- **A relative source makes a dangling link.** The materializer stores the
  source path in the link as it was given. A relative source is then read
  from the link directory, not from where the command ran, so the new link
  can dangle although the call succeeded (`Links.RelativeSourceDangles`).
  A second call without `force` then does not skip: `exists()` reports
  nothing, the link fails on the taken name, and the copy writes the source's
  bytes through the dangling link (`Links.RelativeSourceSecondCallCopies`).
- **An absolute token escapes the link directory.** `PathBuf::push` replaces
  the base with an absolute segment, so `resolve_model_ref` may return a path
  outside the link directory (`Links.AbsoluteModelIgnoresLinkDir`).
- **Tagged models in `ggufy-simple` are not checked on disk.** For a
  `name:tag` model with a non-cloud tag, the binary runs `llama-cli` on
  `name-tag.gguf` in the link directory without checking that the file
  exists, and without asking the probe (`SimpleBin.TaggedModel`).
- **The two `PATH` scans differ on an empty entry.** The dispatcher
  pushes the name onto the entry. `ggufy-simple` formats `entry/name`. The
  two agree on ordinary entries, but an empty entry gives the relative
  `name` in one and the root `/name` in the other
  (`SimpleBin.CandidateAgreesWithDispatcher`, `SimpleBin.EmptyEntryDiffers`).

## Model

| member | source | states |
|---|---|---|
| Text.Split | src/main.rs:842-847 | `str::split` on one character: at least one piece, no piece contains the separator, and a string without it is its own only piece |
| Text.FirstPiece | src/main.rs:842-847 | the first piece is a prefix without the separator, followed by the separator or the end, and shorter than the string iff the string has a separator |
| Text.SplitFirstTwo | src/main.rs:842-847 | the first piece of a split is its first piece; there is a second piece iff there is a separator, and it is the first piece of what follows the first separator |
| Text.JoinSplit | src/main.rs:1007-1027 | joining the pieces of a split with the separator gives back the original string |
| Text.SplitJoin | src/main.rs:842-847 | splitting a join of separator-free pieces gives back the pieces |
| Text.Lower | src/main.rs:199 | ASCII lower-casing keeps the length and lowers exactly the letters A-Z |
| Text.EqIgnoreAsciiCaseCharwise | src/main.rs:142 | `eq_ignore_ascii_case` holds iff the lengths agree and every position agrees after lowering |
| Text.ReplaceChar | src/main.rs:880 | replacing every ':' by '-' keeps the length, puts '-' at every position that held ':', leaves no ':' and leaves every other character in place |
| Paths.Push | src/main.rs:934-936 | `PathBuf::push`: an absolute segment replaces the base; otherwise the segment ends the result, after one added '/' exactly when the base is non-empty and does not already end in '/' |
| Paths.FileName | src/main.rs:571 | `file_name`: a non-empty final component, without '/', never "." or ".." |
| Paths.FileNameSpec | src/main.rs:571 | the file name is the last component other than ".", followed only by separators and "." components; there is none when only those remain or when that last component is ".." |
| Paths.NameExtension | src/main.rs:943 | `extension`: the text after the last '.' of the name whenever that dot is not the first character; none exactly when the name has no dot or its last dot is the first character |
| Paths.Extension | src/main.rs:943 | a path has an extension only when it has a file name, and the extension contains no '.' |
| Paths.SetExtension | src/main.rs:943-945 | `set_extension`: a path without a file name is unchanged; otherwise the final component, trailing separators dropped, gets "." and the extension |
| Paths.PushedFileName | src/main.rs:934-945 | the file name of `dir` pushed with a plain name is that name, and its extension is the name's own |
| Paths.PushedSetExtension | src/main.rs:943-945 | for a plain name without an extension, setting "gguf" is the same as pushing `name.gguf` |
| Paths.DottedNameHasExtension | src/bin/ggufy-simple.rs:74 | "llama3.2" already has the extension "2", so it gets no ".gguf" |
| Paths.HiddenNameHasNoExtension | src/main.rs:943 | a name whose only dot is its first character, such as ".env", has no extension |
| FileSystem.IsGgufFile | src/main.rs:665-670 | `is_gguf_file` is an error iff the file cannot be opened, and true iff at least 4 bytes are read and they are the magic |
| FileSystem.GgufMagicIsAscii | src/main.rs:669 | the magic is the 4 ASCII bytes of "GGUF" |
| FileSystem.ShortFileIsNotGguf | src/main.rs:665-670 | an existing file shorter than 4 bytes, the empty one included, sniffs as false, not as an error |
| FileSystem.MagicPrefixIsGguf | src/main.rs:665-670 | any file that starts with the magic passes the sniff, whatever follows |
| FileSystem.FirstExistingOfSpec | src/main.rs:1007-1027 | the first-existing scan returns the earliest candidate that exists, and none iff no candidate exists |
| FileSystem.LinkTarget | src/main.rs:996-1005 | the link `symlink` makes holds the source as given: an absolute target is read as it stands, a relative one from the directory holding the link, and so as it stands only for a link in the working directory |
| Layout.ModelsDirWith | src/main.rs:516-523 | the link directory is the override when given, else `~/.guffy/models` |
| Layout.LocationsDistinct | src/main.rs:516-563 | the link directory, the blob store and the manifest directory are three different paths |
| ModelTag.SplitModelTagIsSplit | src/main.rs:842-847 | the name is the first piece of `split(':')` and the tag the second, or "latest" when there is no second piece |
| ModelTag.NoColonIsName | src/main.rs:842-847 | a token without ':' is all name, with the tag "latest" |
| ModelTag.SplitModelTagParts | src/main.rs:842-847 | for a token with ':', the name is the text before the first ':' and the tag the text after it up to the next ':' or the end; neither contains ':' (src/bin/ggufy-simple.rs:80-85 is an identical copy, modelled by the same function) |
| ModelTag.NormalizeModelTag | src/main.rs:772-782 | a target with ':' is split and the tag argument is ignored; otherwise the target is the name and the tag argument, or "latest", the tag |
| ModelTag.TrailingColonGivesEmptyTag | src/main.rs:842-847 | "a:" gives the empty tag, not "latest" |
| ModelTag.ThirdPieceIgnored | src/main.rs:842-847 | "a:b:c" gives ("a", "b") |
| ModelTag.QualifiedRoundTrip | src/main.rs:784-799 | splitting the `name:tag` argument gives back the name and the tag when neither contains ':' |
| ModelTag.NormalizeWithoutTagIsSplit | src/main.rs:772-782 | with no separate tag argument, normalising is splitting |
| ModelTag.CloudTagCases | src/main.rs:142 | "cloud", "Cloud" and "CLOUD" select the remote backend; "clouds" and "latest" do not |
| ModelTag.LinkNameHasGgufExtension | src/bin/ggufy-simple.rs:35 | the stable link name `name-tag.gguf`, pushed on any directory, has the extension "gguf", whatever separators the name holds, as long as the tag holds none |
| ModelTag.GgufEndedPath | src/bin/ggufy-simple.rs:71-78 | any path whose last six characters are a non-separator followed by ".gguf" has the extension "gguf", so `set_extension` is not applied to it |
| Manifest.BlobsForMembership | src/main.rs:875-899 | a path is collected iff some string leaf starts with "sha256:", names that blob (every ':' replaced by '-') and the blob exists |
| Manifest.BlobsForExist | src/main.rs:881-884 | every collected blob exists |
| Manifest.BlobsForAppend | src/main.rs:875-899 | collection over concatenated leaves is the concatenation of the collections, so the order is depth-first |
| Manifest.DigestsOfString | src/main.rs:877-885 | a string leaf contributes its own blob when it is a digest whose blob exists, and nothing otherwise |
| Manifest.BlobNameHasNoColon | src/main.rs:880 | the blob name has the digest's length and no ':', and a digest's blob name starts with "sha256-" |
| Manifest.CollectDigests | src/main.rs:875-899 | `collect_digests` appends exactly the blobs of the value's leaves, in depth-first order, and keeps what was already in `out` |
| Manifest.CollectItems | src/main.rs:887-891 | the array loop appends the blobs of every item, in order |
| Manifest.CollectMembers | src/main.rs:892-896 | the object loop appends the blobs of every member's value, in order; keys contribute nothing |
| Manifest.GgufSized | src/main.rs:863-870 | every kept entry is a collected blob that exists, passes the sniff, and carries its own size |
| Manifest.GgufSizedComplete | src/main.rs:863-870 | every collected blob that passes the sniff is kept |
| Manifest.KeepGguf | src/main.rs:863-870 | the loop keeps exactly the collected blobs that pass the sniff, with their sizes, in order |
| Manifest.LastMaxIndex | src/main.rs:871-872 | the chosen entry has the maximum size, and every later entry is strictly smaller |
| Manifest.SortBySize | src/main.rs:871 | the sort by size is a permutation |
| Manifest.SortBySizeSorted | src/main.rs:871 | the sort by size orders by non-decreasing size |
| Manifest.SortThenPopIsLastMax | src/main.rs:871-872 | the last element after the stable sort is the last entry of maximum size |
| Manifest.LargestSized | src/main.rs:863-872 | the entry that sort-then-pop chooses is a collected blob that exists, passes the sniff, is at least as large as every blob that passes, and is the last of that size |
| Manifest.PopAfterSort | src/main.rs:871-872 | `pop` after the sort gives none iff nothing was kept, else the last element of the sorted list |
| Manifest.ResolveOllamaLibraryGguf | src/main.rs:849-873 | the method computes the library resolver's result |
| Manifest.LibraryGgufNone | src/main.rs:849-873 | the resolver finds nothing iff the manifest is missing or unparseable, or no collected blob passes the sniff |
| Manifest.LibraryGgufPicksLargest | src/main.rs:849-873 | a found blob is collected from the manifest, exists, passes the sniff, is at least as large as every blob that passes, and is the last of that size |
| Links.WriteTarget | src/main.rs:592 | a write through a path lands on an absent path or a regular file |
| Links.WriteThrough | src/main.rs:592 | after a write at the write target of a path, reading the path gives the written bytes |
| Links.LinkStore.RemoveFile | src/main.rs:576 | `remove_file` takes the entry out of the directory, and nothing else changes |
| Links.LinkStore.Symlink | src/main.rs:996-1005 | the symbolic link succeeds iff it is possible and the name is free, and then adds exactly that link; otherwise nothing changes |
| Links.LinkStore.Copy | src/main.rs:592 | `fs::copy` reads the source, then writes it where the destination leads; a failure changes nothing |
| Links.LinkStore.LinkAt | src/main.rs:574-594 | the remove, link, copy sequence leaves the directory and the result that `Materialize` gives |
| Links.LinkStore.SymlinkInto | src/main.rs:565-595 | `symlink_into_guffy` materialises under the source's own file name in the link directory |
| Links.LinkStore.SymlinkNamedInto | src/main.rs:597-627 | `symlink_named_into_guffy` materialises under the given name in the link directory |
| Links.Materialize | src/main.rs:597-627 | a successful call leaves an entry under the destination name; a failed call leaves the directory as the forced removal left it |
| Links.SkipWhenPresent | src/main.rs:606-611 | without `force`, an existing destination is left alone and the call succeeds |
| Links.LinkedReadsSource | src/main.rs:606-626 | on success the destination reads what the source read, whether linked or copied, for a source the new link names from the link directory (an absolute source, or a destination in the working directory) |
| Links.IdempotentWithoutForce | src/main.rs:597-627 | after one successful call without `force`, a second one changes nothing and succeeds, whatever its link and copy outcomes, for a source the new link names from the link directory |
| Links.FailsOnlyWhenCopyFails | src/main.rs:613-626 | the call fails iff the link cannot be made and the copy fails; a failure leaves only the forced removal behind |
| Links.FreshNameGetsLink | src/main.rs:613-615 | with working symbolic links and a free name, the result is exactly one new link |
| Links.TouchesOnlyDestination | src/main.rs:597-627 | no entry other than the destination and the copy's write target changes |
| Links.DanglingLinkWrittenThrough | src/main.rs:606-626 | under `force`, a dangling link at the destination stays, and the copy creates its target |
| Links.RelativeSourceDangles | src/main.rs:613-615 | a relative source with nothing at its name in the link directory gives a successful call that leaves a dangling link |
| Links.RelativeSourceSecondCallCopies | src/main.rs:606-626 | a second call without `force` after such a dangling link copies the source's bytes through the link, creating its target |
| Links.ResolveModelRef | src/main.rs:934-950 | a resolved reference exists |
| Links.ResolveModelRefPlain | src/main.rs:934-950 | for a plain name: the name in the link directory if it exists, else `name.gguf` when the name has no extension and that exists, else none |
| Links.AbsoluteModelIgnoresLinkDir | src/main.rs:934-950 | an absolute token resolves the same whatever the link directory, and to itself whenever it exists |
| Commands.PortOrDefault | src/main.rs:985-994 | an explicit port wins; otherwise 11434 for the Ollama family and 12434 for llama.cpp |
| Commands.DecimalString | src/main.rs:697-720 | the port's text is decimal digits without a leading zero |
| Commands.DecimalRoundTrip | src/main.rs:697-720 | reading the port's decimal text gives back the port |
| Commands.ServerArgsRoundTrip | src/main.rs:697-720 | llama-server gets `-m`, the model, `--port` and the port, then the pass-through arguments unchanged |
| Commands.ServerHfArgsRoundTrip | src/main.rs:672-695 | llama-server gets `-hf`, the repository, `--port` and the port, then the pass-through arguments unchanged |
| Commands.CliArgsRoundTrip | src/main.rs:722-737 | llama-cli gets `-m` and the model, then the pass-through arguments unchanged, or `-p`, the prompt and `-no-cnv` for a one-shot run |
| Commands.PromptWords | src/main.rs:186-196 | the joined prompt is empty only for no words or one empty word, and words without spaces split back out of it |
| Commands.OllamaArgsRoundTrip | src/main.rs:784-813 | ollama gets `run` and `name:tag`, which splits back to the name and tag, then the pass-through arguments or the prompt |
| Commands.BinCandidates | src/main.rs:1007-1027 | one candidate per `PATH` entry, in order: the entry with the program name pushed on |
| Commands.BinOnPathSpec | src/main.rs:1007-1027 | the program is found at the first entry where it exists, and nowhere iff it exists under no entry |
| Commands.ResolveBin | src/main.rs:1007-1027 | the `PATH` loop returns the first existing candidate, and none without `PATH` |
| Commands.Launch | src/main.rs:697-720 | shared by both binaries: a program their `PATH` scan does not find exits 127; a started program is the one found and gets the argument vector unchanged; an exit keeps its code; only a panic panics |
| Dispatch.Resolvers | src/main.rs:849-873 | the dispatcher's lookups pass the probe, the cache and the directory outcome through |
| Dispatch.DecideHf | src/main.rs:126-137 | the Hugging Face branch starts llama-server with `-hf repo` on llama.cpp's port, and links the newest cached file under its own name after the launch, exactly when the cache has one |
| Dispatch.DecideRun | src/main.rs:138-185 | the run branch links only what llama-server serves, on llama.cpp's port |
| Dispatch.DecideSimple | src/main.rs:186-255 | the one-shot branch never creates a link, before or after launch, and only ever starts llama-cli or ollama, never llama-server |
| Dispatch.DecideOllamaRun | src/main.rs:291-313 | the registry run branch serves on the Ollama port and links only for llama-server |
| Dispatch.DecideOllamaServe | src/main.rs:357-397 | the registry serve branch serves on the Ollama port and links only for llama-server |
| Dispatch.DecideServe | src/main.rs:314-324 | the serve branch serves on llama.cpp's port |
| Dispatch.DecideCli | src/main.rs:325-334 | the cli branch makes no link and starts llama-cli on the resolved reference, or the token itself, with the pass-through arguments |
| Dispatch.Decide | src/main.rs:123-505 | a failure to create the link directory panics before any branch; a link is only made for llama-server |
| Dispatch.Execute | src/main.rs:126-164 | the link is made before the launch, or only after a successful spawn when the plan says so; the outcome is the launch of the planned action, whether or not the link was made |
| Dispatch.Dispatch | src/main.rs:123-505 | one invocation decides on the filesystem as it stands and carries out that plan: the link before the launch, or after a successful spawn for the Hugging Face branch |
| Dispatch.ModeGuardsExit2 | src/main.rs:128-131 | Hf, Serve and Cli without `-c` (or with `-o`), and OllamaRun and OllamaServe without `-o` (or with `-c`), exit 2 whatever the lookups |
| Dispatch.RunCloudTag | src/main.rs:140-143 | a cloud tag in any case runs `ollama run name:tag` with no probe and no local lookup |
| Dispatch.RunImplicitTag | src/main.rs:144-164 | with no tag argument, a library blob is linked as `name-tag.gguf` and served, else `ollama run name:cloud`; the probe plays no part |
| Dispatch.RunExplicitTag | src/main.rs:165-184 | with a tag argument and a normalised tag that is not the cloud tag: the remote copy of the normalised name when the probe finds it, else its library blob served, else exit 1 |
| Dispatch.UntaggedRunFallsBackToCloud | src/main.rs:144-164 | `ggufy run mistral` with no library blob starts `ollama run mistral:cloud` |
| Dispatch.NoManifestRunsCloud | src/main.rs:849-855 | on a filesystem without the manifest of `mistral:latest`, `ggufy run mistral` starts `ollama run mistral:cloud` |
| Dispatch.SimpleEmptyPrompt | src/main.rs:188-196 | the one-shot command exits 2 iff the joined prompt is empty |
| Dispatch.SimpleAudioGoesRemote | src/main.rs:198-211 | a prompt with "tts" or "audio" in any ASCII case runs ollama with the prompt, as `name:tag` or `model:cloud`, whatever is on disk |
| Dispatch.TtsPromptIgnoresLocalFile | src/main.rs:198-211 | "read this with TTS" goes to `ollama run model:cloud` even when the link directory holds the model |
| Dispatch.SimpleTagged | src/main.rs:212-237 | a tagged non-cloud model: llama-cli `-m blob -p prompt -no-cnv` on the library blob, else the remote copy, else exit 1 |
| Dispatch.SimpleBare | src/main.rs:238-253 | a bare model: llama-cli on the resolved reference, else the remote copy, else exit 1 |
| Dispatch.OllamaRunServesLibraryBlob | src/main.rs:291-313 | the library blob is linked as `name-tag.gguf` and served on the Ollama port, else exit 1; the same for `ollama run` |
| Dispatch.OllamaServeCases | src/main.rs:357-397 | a `name:tag` target is served from the library or exits 1; any other target from the link directory, or as given |
| Dispatch.ServeAndCliTarget | src/main.rs:314-334 | Serve and Cli use the resolved reference, else the token itself |
| Dispatch.ModelPathExistsOrToken | src/main.rs:320-321 | the path handed to Serve and Cli is the token itself or an existing file |
| Dispatch.DefaultPorts | src/main.rs:985-994 | without `--port`, llama-server gets 11434 for the registry commands and 12434 for all others |
| SimpleBin.DefaultLinkDir | src/bin/ggufy-simple.rs:62-69 | the environment override when set, else `home/.guffy/models` |
| SimpleBin.SameLinkDirAsDispatcher | src/bin/ggufy-simple.rs:62-69 | both binaries use the same link directory for the same override |
| SimpleBin.LinkPathFor | src/bin/ggufy-simple.rs:71-78 | a pushed path that already has an extension is returned as it stands |
| SimpleBin.LinkPathForAddsGguf | src/bin/ggufy-simple.rs:71-78 | a plain name without a dot gets ".gguf" appended |
| SimpleBin.DottedModelKeepsName | src/bin/ggufy-simple.rs:71-78 | "llama3.2" is looked up as it stands |
| SimpleBin.LinkNameUnchanged | src/bin/ggufy-simple.rs:35 | the stable link name is looked up as it stands, with no second extension |
| SimpleBin.DecideTagged | src/bin/ggufy-simple.rs:29-36 | a tagged model gives a one-shot llama-cli or ollama argument vector, never a server |
| SimpleBin.DecideBare | src/bin/ggufy-simple.rs:37-47 | llama-cli `-m p -p prompt -no-cnv` iff the link path exists; `ollama run model:cloud` iff it does not and the probe finds the model; otherwise exit 1 |
| SimpleBin.SimpleDecide | src/bin/ggufy-simple.rs:18-48 | every action is a one-shot llama-cli or ollama run with the prompt in place, or an exit |
| SimpleBin.UsageErrors | src/bin/ggufy-simple.rs:20-28 | exit 2 iff the prompt is empty or no model is given; an empty prompt exits 2 whatever the model |
| SimpleBin.ModelFlagWins | src/bin/ggufy-simple.rs:25 | with `-m` given, the positional model plays no part |
| SimpleBin.TaggedModel | src/bin/ggufy-simple.rs:29-36 | the cloud tag runs `ollama run name:tag prompt`; any other tag without a separator runs llama-cli on `name-tag.gguf` in the link directory, regardless of the filesystem and the probe |
| SimpleBin.BareModel | src/bin/ggufy-simple.rs:37-47 | a bare model is decided on its link path |
| SimpleBin.Candidates | src/bin/ggufy-simple.rs:50-60 | one candidate per `PATH` entry, in order: the entry, '/', and the program name |
| SimpleBin.BinOnPathSpec | src/bin/ggufy-simple.rs:50-60 | the program is found at the first entry where it exists, and nowhere iff it exists under no entry |
| SimpleBin.ResolveBin | src/bin/ggufy-simple.rs:50-60 | the `PATH` loop returns the first existing `entry/name`, and none without `PATH` |
| SimpleBin.CandidateAgreesWithDispatcher | src/bin/ggufy-simple.rs:53 | for a non-empty entry not ending in '/', both binaries try the same path |
| SimpleBin.EmptyEntryDiffers | src/bin/ggufy-simple.rs:53 | for an empty entry this binary tries "/name" and the dispatcher "name" |
| SimpleBin.RunOnce | src/bin/ggufy-simple.rs:18-48 | one run is the shared launch of the decided action with this binary's own `PATH` scan |

## Left out

- Process spawning, waiting and `--dry-run` printing (`spawn_or_print`,
  `cmd.status()`, `expect` on a failed spawn). A launch is an `Outcome`
  holding the binary and the argument vector, and `Spawned` means the
  binary was found.
- The `ollama show` probe is a boolean function of the name, in both binaries.
- Directory walks are left out:
  - the commands that only walk directories and print or count (`List`,
    `Link`, `Locate` with its regular expression, `ollama link-all`);
  - `find_llama_cache_models`, `find_ollama_blob_gguf` and
    `enumerate_ollama_library_models`;
  - `find_hf_cached_gguf` with its modification-time sort, which is the
    `hfCache` input.
- Manifest reading and JSON parsing (`read_to_string`, `serde_json`) are one input from bytes to an optional
  JSON tree. Numbers, booleans and null are one `JOther` case. An object's
  members come in the order the parser gives; serde_json gives them sorted by
  key, which fixes the collection order and the choice between equal sizes.
- `to_lowercase` is modelled as ASCII lower-casing. Non-ASCII letters are not lowered.
- Argument parsing (clap) is out. The model starts from the parsed flags and
  subcommand, with `GGUFY_MODELS_DIR` already folded into `--link-dir`.
- `create_dir_all` in `ensure_models_dir` is a boolean outcome. Its failure panics (`expect`).
  Directories are not nodes of the filesystem.
- `home_dir()` is a parameter. Its absence, which panics, is not modelled.
- Windows paths, the `;` separator, `.exe`, and the `cfg` branches of
  `llama_cache_dir` and `symlink_file` are out. Paths are Unix paths.
- `Paths.Push`: interior "." and ".." components and repeated separators are
  not normalised, as Rust does not normalise them either. Paths are
  compared as strings. The same holds for link targets: `FileSystem.LinkTarget`
  does not resolve ".." in a relative target.
- `FileSystem.IsGgufFile`: a short read that returns fewer than 4 bytes from a
  longer file is not modelled. The whole file is read.
- `Size` is the byte length of the file a path leads to. Sparse files and
  metadata errors are not modelled.
- `find_mmproj_for` and `scan_for_mmproj` are never called, and are not modelled.
- `Dispatch.Dispatch` requires the link source of the Hugging Face branch to have a file
  name. `symlink_into_guffy` would panic on `file_name().unwrap()` otherwise,
  and that panic is not modelled.
- `Dispatch.Execute` requires the same of any plan whose link keeps the source's file name.
- `Links.LinkedReadsSource` requires the source to resolve within 39 link hops
  rather than 40, because the new link adds one hop. It also requires that the
  link names the source from the link directory (an absolute source, or a
  destination in the working directory); otherwise the link may dangle, as
  `Links.RelativeSourceDangles` shows.
- `Links.IdempotentWithoutForce` has the same two requirements, for the same
  reasons; `Links.RelativeSourceSecondCallCopies` shows that a second call is
  not idempotent for a relative source.
- `Links.LinkStore.Symlink`: the platform's reasons for refusing a symbolic link are one boolean input,
  and a refusal is the single error `LinkRefused`.
- `Links.LinkStore.Copy`: the reasons for a failed copy are one boolean input, and
  a failed copy changes nothing. A real `fs::copy` that fails part way can
  leave an empty or partial file at the destination; that is not modelled.
- Messages on standard error and the `--verbose` output are out.
- The uv shim, the Homebrew formula and the integration tests only run the
  binary, and are not modelled.
