# A verified model of the AI-configuration sync and the output-template generator

This project models two scripts of a repository that keeps the AI-assistant
configuration of a project (commands, adapters, a memory bank) in one `.ai/`
tree and projects it into the layouts that Cursor, Claude Code and Gemini CLI
read.

* `scripts/sync-ai-config.js` is the sync. It includes:
  - `ensureDir` and `copyFile`;
  - `copyDirectory`, the recursive mirror with a suffix filter and a count;
  - `convertMdToToml`, which turns a Markdown command with a `---` front
    matter into a TOML manifest;
  - `syncGeminiCommands`, the converting mirror that writes `X.toml` for
    every `X.md` and counts the manifests;
  - the write-if-absent seeding of `generateMemoryBankStructure`;
  - the `TOOLS` registry, `syncTool` and `main`, with the `--tool` argument.
* `scripts/template-generator.js` places rendered command outputs. It includes:
  - `generateFromTemplate`: command and output lookup, context merge,
    template check, the overwrite-skip decision and the write;
  - `generateCommandOutputs`: one output at a time, an error skips only that
    output;
  - `initializeTemplateStructure`: the set of distinct output directories,
    creating only those that are missing.

The file system is a class `Fs.FileSystem`. Its fields are `files`, a map
from paths to contents, and `dirs`, a set of directories. Paths are
sequences of components and `path.join` is concatenation. Every method that
changes the disk is proved equal to a function of the old state
(`fs.State() == XSpec(old(fs.State()), …)`). What each operation achieves is
then proved about those functions as lemmas: idempotence, "nothing else
changes", round trips and counts.

Things outside the scripts are parameters:

* the listing of a source directory: `readdir` order is unspecified, so the
  entries come as a given sequence, and `None` means the directory is
  missing;
* the YAML loader: a partial function `load: string -> Option<Frontmatter>`;
* `Mustache.render`: a function `render(template, context)`;
* the global metadata of the template generator;
* the clock: the time stamp in the memory bank's dashboard;
* the two settings documents: their JSON text embeds the working directory.

Modules:

| module | models |
|---|---|
| `Common` | `Option`/`Result`, paths and `mkdir -p` ancestors, JavaScript truthiness of optional strings, first-match search |
| `Text` | `String.prototype.trim` with JavaScript's whitespace set |
| `Fs` | the disk, `ensureDir`, `writeFile`, `copyFile` |
| `Mirror`, `MirrorProofs` | `copyDirectory` and its laws |
| `Manifest`, `ManifestProofs` | front-matter split, manifest rendering, `convertMdToToml`, and a reader of the manifest used to state what was written |
| `GeminiCommands`, `GeminiProofs` | `syncGeminiCommands` and its laws |
| `MemoryBank` | `generateMemoryBankStructure` |
| `Sync`, `SyncProofs` | `TOOLS`, `TOOL_ARG`, `syncTool`, `main` |
| `TemplateGenerator`, `TemplateProofs` | `template-generator.js` |

Where the code and the design notes of the repository differ, the model follows the code:

* An unknown tool name is reported and skipped; the run goes on. It is not fatal.
* Front matter the YAML loader rejects gives no manifest. The document is not
  kept with empty metadata.
* A Markdown file without front matter also gives no manifest.
* Nothing is escaped in the manifest, not even `"""` in the body.
* The documentation body is trimmed in full (`trim()`), not just of one
  leading newline.
* Each tool's settings file is written after its commands are mirrored.

## Model

| member | source | states |
|---|---|---|
| Common.Find | scripts/template-generator.js:77 | `Array.prototype.find` as an index: the index found satisfies the predicate and no earlier element does; `None` only when no element does |
| Common.OrElse | scripts/sync-ai-config.js:100-105 | `x \|\| fallback` on optional strings: the value when it is present and non-empty, the fallback otherwise |
| Common.Ancestors | scripts/sync-ai-config.js:35-41 | `mkdir` with `recursive: true` creates exactly the non-empty prefixes of the path, the path itself included |
| Text.Trim | scripts/sync-ai-config.js:97 | the result is a slice of the input, whitespace-only on both sides, and neither starts nor ends with whitespace |
| Fs.EnsureDirKeepsFiles | scripts/sync-ai-config.js:35-41 | creating a directory changes no file, makes the path exist, and never removes a directory; an existing directory is no error |
| Fs.FileSystem.EnsureDir | scripts/sync-ai-config.js:35-41 | the new state is the old one with the path and its ancestors added to the directories |
| Fs.FileSystem.CopyFile | scripts/sync-ai-config.js:43-55 | returns true iff the source file exists; the destination then gets the source's content, otherwise nothing changes |
| Mirror.CopyDirectory | scripts/sync-ai-config.js:57-86 | the target is created first; a missing source directory yields count 0; otherwise the disk and count are those of the tree copy |
| Mirror.CopyTree | scripts/sync-ai-config.js:58-79 | the entry loop: the disk is the copy of the entries in listing order, and the count is the recursive count of accepted files |
| MirrorProofs.MirrorTree | scripts/sync-ai-config.js:57-86 | with source and target apart, the disk after the copy is the old files plus each accepted file at the same relative path under the target with the source's content. The new directories are the target and its subdirectories |
| MirrorProofs.CountAccepted | scripts/sync-ai-config.js:64-79 | with unique names per directory, the count is the number of accepted files of the tree, including files whose copy found no source |
| MirrorProofs.MirrorIdempotent | scripts/sync-ai-config.js:57-86 | copying the same tree twice leaves the same disk as copying it once |
| MirrorProofs.MirrorKeepsSources | scripts/sync-ai-config.js:57-86 | no file under the source directory is created, removed or changed by the copy |
| MirrorProofs.UnderSize | scripts/sync-ai-config.js:69-70 | a subdirectory contributes as many files as its own tree holds |
| Manifest.SplitFrontmatter | scripts/sync-ai-config.js:91-97 | the regex `^---\n([\s\S]*?)\n---\n`: no match iff the text does not start with `---\n` or has no later `\n---\n`; on a match the text is opening, header, closing, rest, and the header holds no earlier closing line |
| Manifest.SplitOfJoin | scripts/sync-ai-config.js:91-97 | splitting a document assembled from a header without a closing line and any rest gives back that header and that rest |
| Manifest.ConvertMdToToml | scripts/sync-ai-config.js:88-135 | no leading `---\n` or no closing `\n---\n` gives null; every manifest produced ends with the `[documentation]` block's closing `"""` |
| ManifestProofs.ConvertRejected | scripts/sync-ai-config.js:131-134 | a header the YAML loader rejects gives null |
| ManifestProofs.ConvertAccepted | scripts/sync-ai-config.js:88-130 | a header the loader accepts, whatever its values hold, gives the rendered manifest of its fields and the trimmed body, ending with `content = """`, the trimmed body and `"""` |
| ManifestProofs.ConvertDocument | scripts/sync-ai-config.js:88-130 | a header the loader accepts, with single-line, quote-free values, gives a manifest that reads back as the fields built from the front matter and the trimmed body, and that ends with `content = """`, the trimmed body and `"""` |
| ManifestProofs.ConvertFields | scripts/sync-ai-config.js:99-128 | for a header the loader accepts with single-line, quote-free values: in the manifest, name falls back to the file name and description to the empty string. `phase` appears iff it is truthy. `prerequisites` and `creates` keep their items and order. `[command.gemini]` appears iff `tools['gemini-cli']` does, with trigger falling back to `/<file name>` and description to the empty string. The body is the trimmed rest |
| ManifestProofs.ParseRender | scripts/sync-ai-config.js:99-128 | every manifest whose values are single-line and quote-free reads back as itself, field by field |
| ManifestProofs.ListValueOf | scripts/sync-ai-config.js:111-117 | a list line `key = ["a", "b"]` reads back as the same items in the same order |
| ManifestProofs.SplitQuoteAll | scripts/sync-ai-config.js:112 | items double-quoted and joined by `", "` split back into the same items |
| ManifestProofs.ParseDocumentationOf | scripts/sync-ai-config.js:127-128 | the `[documentation]` block reads back as exactly the body it embeds, unescaped |
| Manifest.RenderEndsWithDocumentation | scripts/sync-ai-config.js:127-128 | the documentation block ends every manifest |
| GeminiCommands.SyncGeminiCommands | scripts/sync-ai-config.js:137-173 | the target is created first; a missing source directory yields count 0; otherwise the disk and count are those of the tree sync |
| GeminiCommands.SyncTree | scripts/sync-ai-config.js:138-172 | the entry loop: subdirectories recurse into the same-named target subdirectory; a read that throws ends the level with count 0, keeping what was written |
| GeminiCommands.SyncEntry | scripts/sync-ai-config.js:145-163 | one entry of the loop: a directory recurses with its count, a file goes through the file step, anything else counts 0 and writes nothing |
| GeminiCommands.SyncFile | scripts/sync-ai-config.js:152-162 | only `.md` files are read; an unreadable one throws; a successful conversion writes `<base>.toml` and counts 1; a null conversion writes nothing and counts 0 |
| GeminiCommands.AbortedStaysAborted | scripts/sync-ai-config.js:154-170 | once a read has thrown, the remaining entries of the level change nothing |
| GeminiCommands.TomlName | scripts/sync-ai-config.js:155-159 | the manifest's name ends with `.toml` |
| GeminiProofs.MdPathOfTomlPath | scripts/sync-ai-config.js:155-159 | renaming `X.md` to `X.toml` loses nothing: the command's path is recovered from the manifest's path |
| GeminiProofs.SyncTreeLaw | scripts/sync-ai-config.js:137-173 | with source and target apart and every command readable, the disk after the sync is the old files plus, for each `.md` command whose conversion succeeds, its manifest at the mirrored `.toml` path. The new directories are the target and its subdirectories |
| GeminiProofs.SyncTreeCount | scripts/sync-ai-config.js:156-166 | with unique names and every command readable, the count is the number of manifests written: commands whose conversion is null do not count |
| GeminiProofs.UnreadableCommandCountsZero | scripts/sync-ai-config.js:154-170 | a `.md` command that cannot be read makes its directory level return 0 |
| GeminiProofs.SyncTreeFrame | scripts/sync-ai-config.js:137-173 | nothing outside the target directory is created, removed or changed |
| GeminiProofs.ConvertedUnder | scripts/sync-ai-config.js:147-151 | the manifests of a subdirectory are those its own sync writes under the mirrored subdirectory |
| GeminiProofs.ConvertedReadsSources | scripts/sync-ai-config.js:154-160 | the sync reads only commands, so writes elsewhere do not change what it converts |
| MemoryBank.GenerateMemoryBank | scripts/sync-ai-config.js:209-282 | the directories are created in order, then each starter file is written only where nothing exists |
| MemoryBank.EnsureDirs | scripts/sync-ai-config.js:220-222 | `ensureDir` on each directory in turn |
| MemoryBank.SeedAll | scripts/sync-ai-config.js:272-279 | each seed is written only when `fs.access` finds nothing at its path |
| MemoryBank.SeedLaw | scripts/sync-ai-config.js:272-279 | seeding adds exactly the seeds that were missing, each with its content, and changes nothing else |
| MemoryBank.SeedingLaw | scripts/sync-ai-config.js:209-282 | no existing file is overwritten; every directory and every seed exists afterwards; every new file is a seed |
| MemoryBank.SeedIdempotent | scripts/sync-ai-config.js:272-279 | seeding a second time changes nothing |
| MemoryBank.EnsureDirsKeepsFiles | scripts/sync-ai-config.js:220-222 | creating the directories changes no file and leaves each of them present |
| Sync.Registry | scripts/sync-ai-config.js:11-33 | a tool is found iff its key is `cursor`, `claude` or `gemini`, and every tool's commands directory lies apart from `.ai/commands` |
| Sync.FirstField | scripts/sync-ai-config.js:8 | `split('=')[1]` after the prefix: the longest `=`-free prefix, followed by `=` when shorter than the input |
| SyncProofs.ToolArgEquals | scripts/sync-ai-config.js:8-9 | the first `--tool=<name>` argument names the tool |
| SyncProofs.ToolArgSpaced | scripts/sync-ai-config.js:8-9 | without any `--tool=` argument, the argument after the first `--tool` names the tool |
| SyncProofs.ToolArgEmptyEquals | scripts/sync-ai-config.js:8-9 | an empty `--tool=` is falsy, so the argument after `--tool` is used |
| SyncProofs.ToolArgAbsent | scripts/sync-ai-config.js:8-9 | with neither form present, no tool is named |
| Sync.SyncTool | scripts/sync-ai-config.js:284-435 | template file, then commands (converted for Gemini, `.md`-copied otherwise), then the tool's adapter; an unknown key changes nothing |
| Sync.SyncClaude | scripts/sync-ai-config.js:318-375 | generator, agents (`.md`), hooks (`.py`), output styles (`.md`), skills (all files), then `.claude/settings.json` rewritten |
| Sync.SyncCursor | scripts/sync-ai-config.js:377-400 | generator, then rules (`.md`) |
| Sync.SyncGemini | scripts/sync-ai-config.js:402-434 | generator, the converters directory created even when empty, converters copied, then `.gemini/settings.json` rewritten |
| Sync.SyncAll | scripts/sync-ai-config.js:442-444 | syncTool on each key in turn, in the order given |
| Sync.Run | scripts/sync-ai-config.js:437-453 | the requested tool, or every tool in order, then the memory bank only when no tool was named |
| SyncProofs.DefaultRun | scripts/sync-ai-config.js:440-450 | with no tool named, the run is every tool and then the memory bank |
| SyncProofs.DefaultOrder | scripts/sync-ai-config.js:440-444 | the default order is the declaration order: cursor, claude, gemini |
| SyncProofs.SyncThree | scripts/sync-ai-config.js:442-444 | three keys are synced one after the other, each on the disk the previous one left |
| SyncProofs.NamedRun | scripts/sync-ai-config.js:440-450 | with a tool named, only that tool is synced and the memory bank is not touched; an unknown name leaves the disk unchanged |
| SyncProofs.CopiedCommands | scripts/sync-ai-config.js:302-315 | for Cursor and Claude, each `.md` command is copied to the same relative path under the tool's commands directory |
| SyncProofs.ConvertedCommands | scripts/sync-ai-config.js:302-306 | for Gemini, each readable command whose conversion succeeds gets its manifest under `.gemini/commands` |
| TemplateGenerator.MergeContext | scripts/template-generator.js:92-95 | the context has the keys of both; the caller's data wins on a collision; the global metadata fills the rest |
| TemplateGenerator.FindOutput | scripts/template-generator.js:77 | the first output of the command with the requested type; none iff no output has that type |
| TemplateGenerator.OutputPath | scripts/template-generator.js:101-103 | the output path is the configured location under the root followed by exactly one more component, the rendered file name |
| TemplateGenerator.GenerateFromTemplate | scripts/template-generator.js:69-121 | the disk and result are those of the checks, the directory creation and the conditional write, in order; an error changes nothing |
| TemplateProofs.GenerateErrors | scripts/template-generator.js:72-87 | an unknown command is an error iff the command is absent; an unknown output type iff the command has no output of that type; any error iff one of these holds or the template path is not a file; an error leaves the disk unchanged |
| TemplateProofs.GenerateOutcome | scripts/template-generator.js:101-120 | after the checks the output directory exists. An existing output with `overwrite` false gives null and no file changes. Otherwise the rendered template is written at the output path, which is returned |
| TemplateProofs.GenerateAgain | scripts/template-generator.js:69-121 | a second generation with fresh global metadata: with `overwrite` false and the same rendered path it returns null and changes nothing; with `overwrite` true it writes its own rendering at its output path, returns that path and adds no directory |
| TemplateProofs.GenerateIdempotent | scripts/template-generator.js:69-121 | generating a second time with the same global metadata leaves the disk as the first time left it, and returns null when `overwrite` is false |
| TemplateProofs.GenerateGrows | scripts/template-generator.js:105-117 | no file or directory is ever removed |
| TemplateGenerator.GenerateCommandOutputs | scripts/template-generator.js:126-151 | an unknown command is an error; otherwise each output in order, collecting the paths written |
| TemplateProofs.GeneratedFiles | scripts/template-generator.js:139-150 | there are at most as many paths as outputs; existing files stay; every path returned exists and is the output path of a configured output |
| TemplateProofs.OutputErrorSkipped | scripts/template-generator.js:140-147 | an output whose generation throws adds nothing and changes nothing; the loop goes on |
| TemplateProofs.OutputsCompose | scripts/template-generator.js:139-150 | the outputs of `a + b` are those of `a` followed by those of `b`, run on the disk `a` left: the paths keep the outputs' order |
| TemplateGenerator.InitializeTemplateStructure | scripts/template-generator.js:156-176 | the directories created are those of the distinct output locations not yet present, with their ancestors |
| TemplateGenerator.CollectLocations | scripts/template-generator.js:158-165 | the set filled by the nested loops is the set of every output location of every command |
| TemplateGenerator.CreateMissing | scripts/template-generator.js:168-173 | each location that does not exist is created with its ancestors; existing ones are skipped |
| TemplateProofs.InitComplete | scripts/template-generator.js:156-176 | no file changes, and every location exists afterwards |
| TemplateProofs.InitIdempotent | scripts/template-generator.js:156-176 | initialising a second time changes nothing |

## Left out

- Console output: every `console.log`/`console.error` line, and the `Template file not found` message of `copyFile`.
- Failed writes. `writeFile`, `mkdir` and `readFile` errors other than a missing source are not modelled: a missing parent directory, writing over a directory, permissions. A write always succeeds and replaces the file.
- The contents of `.claude/settings.json` and `.gemini/settings.json`. They are fixed JSON texts apart from `process.cwd()`, so they are parameters of the run. The model states only that they are rewritten on every run.
- `js-yaml` and Mustache are parameters. Mustache's escaping and sections are not modelled. Front-matter fields are optional strings and string lists. Other YAML values (numbers, booleans, objects, non-string list items) and their JavaScript string forms are not modelled.
- Listings are a snapshot taken before the operation: a directory that a sync creates inside its own source is not seen. Each tool's commands directory lies apart from `.ai/commands` in the registry, so the sync never does this.
- The order in which `initializeTemplateStructure` creates directories is not modelled. The locations are a set, and the final disk does not depend on that order.
- Path normalisation of `path.join` (`..`, `.`, repeated separators) and a rendered file name containing `/` are not modelled; a file name is one path component.
- Context values are strings; `Object.prototype` keys and non-string JSON values of the caller's data are not modelled.
- Sync.Registry: a tool name that is an `Object.prototype` key (`constructor`, `toString`) passes the `TOOLS[toolKey]` test in `syncTool`; `path.join` then throws and the process exits with status 1 through `main().catch`. The model reports such a name as unknown. The disk ends the same (nothing was written for it, and a named tool skips the memory bank); the exit status is not modelled.
- TemplateProofs.GenerateIdempotent: holds only when the global metadata is the same on both runs; the script re-reads it (git state, clock) on every call, and GenerateAgain states the case where it differs.
- `getGlobalMetadata` is evaluated once: the git calls, the environment, `package.json` and the clock are one given context. The script evaluates it once per output.
- `loadConfig`: a configuration that cannot be read or parsed ends the process. It is not modelled: the configuration is a given value.
- The template generator's command-line `main` and the other scripts of the repository (setup, publish, verify-setup, setup-enforcement, ai-init, ai-initializer, the adapter generators) are not part of this model.
- MemoryBank.GenerateMemoryBank: the laws (SeedingLaw, SeedIdempotent) are proved for any directories and seeds and apply to the script's own list. No lemma restates them for the nine literal seeds.
- GeminiProofs.SyncTreeLaw: the closed form is proved when every command can be read. When one cannot, UnreadableCommandCountsZero states the count and SyncTreeFrame the frame, but the files written before the throw are described only by the step-by-step definition.
- MirrorProofs.CountAccepted and GeminiProofs.SyncTreeCount assume unique names within each directory, which `readdir` guarantees.
