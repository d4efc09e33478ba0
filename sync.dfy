/** The dispatcher of scripts/sync-ai-config.js: the TOOLS registry, the
    `--tool` argument, syncTool for one tool and the run over all of them.

    Besides the disk, a run reads things this model takes as parameters (see
    `Inputs`): the listings of the directories under `.ai` that it walks, the
    YAML loader, the two settings documents (fixed JSON literals that embed
    the working directory) and the clock. */
module Sync {
  import opened Common
  import opened Text
  import opened Fs
  import opened Mirror
  import opened Manifest
  import opened GeminiCommands
  import MemoryBank

  /** One entry of the TOOLS registry (scripts/sync-ai-config.js:11-33). */
  datatype Tool = Tool(name: string, templateFile: string, outputFile: string, commandsDir: Path, settingsFile: Option<Path>)

  /** Where every tool's commands come from. */
  const CommandsSource: Path := [".ai", "commands"]

  /** The registry's keys, in declaration order. */
  const ToolKeys: seq<string> := ["cursor", "claude", "gemini"]

  /** A registry entry: every tool keeps its commands in `<dir>/commands`, and
      its settings, if any, in `<dir>/settings.json`. */
  function ToolEntry(name: string, file: string, dir: string, hasSettings: bool): (t: Tool)
    requires dir != CommandsSource[0]
    ensures Apart(CommandsSource, t.commandsDir)
  {
    assert CommandsSource[0] != [dir, "commands"][0];
    Tool(name, file, file, [dir, "commands"], if hasSettings then Some([dir, "settings.json"]) else None)
  }

  /** `TOOLS[key]`. */
  function Registry(key: string): (r: Option<Tool>)
    ensures r.Some? <==> key in ToolKeys
    ensures r.Some? ==> Apart(CommandsSource, r.value.commandsDir)
  {
    if key == "cursor" then Some(ToolEntry("Cursor", ".cursorrules", ".cursor", false))
    else if key == "claude" then Some(ToolEntry("Claude Code", "CLAUDE.md", ".claude", true))
    else if key == "gemini" then Some(ToolEntry("Gemini CLI", "GEMINI.md", ".gemini", true))
    else None
  }

  /** What a run reads besides the disk. `listing(p)` is the readdir of `p`
      (`None` when it is missing); `load` is the YAML loader; the settings
      texts are what generateClaudeSettings and generateGeminiSettings write;
      `now` is the ISO time the memory bank's dashboard records. */
  datatype Inputs = Inputs(
    listing: Path -> Option<seq<Entry>>,
    load: string -> Option<Frontmatter>,
    claudeSettings: string,
    geminiSettings: string,
    now: string)

  /** The converter the script hands to syncGeminiCommands. */
  function Converter(load: string -> Option<Frontmatter>): (string, string) -> Option<string> {
    (text, fileName) => ConvertMdToToml(text, fileName, load)
  }

  // ---------------------------------------------------------------------------
  // The --tool argument (lines 8-9)
  // ---------------------------------------------------------------------------

  const ToolFlag: string := "--tool"
  const ToolPrefix: string := "--tool="

  /** `s.split('=')[0]`: the text before the first `=`. */
  function FirstField(s: string): (r: string)
    ensures forall k :: 0 <= k < |r| ==> r[k] != '='
    ensures |r| <= |s| && r == s[..|r|]
    ensures |r| < |s| ==> s[|r|] == '='
  {
    match IndexOf(s, '=', 0)
    case None => s
    case Some(i) => s[..i]
  }

  /** TOOL_ARG: the value of the first `--tool=` argument (cut at its next
      `=`); when that is absent or empty, the argument after the first
      `--tool`; otherwise none. */
  function ToolArg(argv: seq<string>): Option<string> {
    var eq :=
      match Find(argv, a => StartsWith(a, ToolPrefix))
      case Some(i) => Some(FirstField(argv[i][|ToolPrefix|..]))
      case None => None;
    if Truthy(eq) then eq
    else
      match Find(argv, a => a == ToolFlag)
      case Some(i) => if i + 1 < |argv| then Some(argv[i + 1]) else None
      case None => None
  }

  /** `TOOL_ARG ? [TOOL_ARG] : Object.keys(TOOLS)` (line 440). */
  function ToolsToSync(arg: Option<string>): seq<string> {
    if Truthy(arg) then [arg.value] else ToolKeys
  }

  // ---------------------------------------------------------------------------
  // syncTool (lines 284-435), step by step
  // ---------------------------------------------------------------------------

  /** Copying the tool's template file to the project root. */
  function TemplateSpec(d: Disk, tool: Tool): Disk {
    CopyFileSpec(d, [".ai", "template", tool.templateFile], [tool.outputFile])
  }

  /** The commands: converted to TOML for Gemini, copied (`.md` only) otherwise. */
  function CommandsSpec(d: Disk, key: string, tool: Tool, inp: Inputs): Disk {
    if key == "gemini" then SyncGeminiSpec(d, CommandsSource, tool.commandsDir, inp.listing(CommandsSource), Converter(inp.load)).0
    else CopyDirectorySpec(d, CommandsSource, tool.commandsDir, inp.listing(CommandsSource), MdOnly)
  }

  /** copyDirectory of one adapter directory. */
  function AdapterDirSpec(d: Disk, src: Path, tgt: Path, exts: Option<seq<string>>, inp: Inputs): Disk {
    CopyDirectorySpec(d, src, tgt, inp.listing(src), exts)
  }

  const ClaudeAdapter: Path := [".ai", "adapters", "claude-code"]
  const CursorAdapter: Path := [".ai", "adapters", "cursor"]
  const GeminiAdapter: Path := [".ai", "adapters", "gemini-cli"]

  /** Claude's adapter (lines 318-375): generator, agents, hooks, output
      styles, skills, then settings (always rewritten). */
  function ClaudeSpec(d: Disk, inp: Inputs): Disk {
    var d1 := CopyFileSpec(d, ClaudeAdapter + ["generator.js"], [".claude", "generator.js"]);
    var d2 := AdapterDirSpec(d1, ClaudeAdapter + ["agents"], [".claude", "agents"], MdOnly, inp);
    var d3 := AdapterDirSpec(d2, ClaudeAdapter + ["hooks"], [".claude", "hooks"], Some([".py"]), inp);
    var d4 := AdapterDirSpec(d3, ClaudeAdapter + ["output-styles"], [".claude", "output-styles"], MdOnly, inp);
    var d5 := AdapterDirSpec(d4, ClaudeAdapter + ["skills"], [".claude", "skills"], None, inp);
    WriteSpec(EnsureDirSpec(d5, [".claude"]), [".claude", "settings.json"], inp.claudeSettings)
  }

  /** Cursor's adapter (lines 377-400): generator, then rules. */
  function CursorSpec(d: Disk, inp: Inputs): Disk {
    var d1 := CopyFileSpec(d, CursorAdapter + ["generator.js"], [".cursor", "generator.js"]);
    AdapterDirSpec(d1, CursorAdapter + ["rules"], [".cursor", "rules"], MdOnly, inp)
  }

  /** Gemini's adapter (lines 402-434): generator, converters (the directory
      is created even when there is nothing to copy), then settings. */
  function GeminiSpec(d: Disk, inp: Inputs): Disk {
    var d1 := CopyFileSpec(d, GeminiAdapter + ["generator.js"], [".gemini", "generator.js"]);
    var d2 := EnsureDirSpec(d1, [".gemini", "converters"]);
    var d3 := AdapterDirSpec(d2, GeminiAdapter + ["converters"], [".gemini", "converters"], None, inp);
    WriteSpec(EnsureDirSpec(d3, [".gemini"]), [".gemini", "settings.json"], inp.geminiSettings)
  }

  function AdapterSpec(d: Disk, key: string, inp: Inputs): Disk {
    if key == "claude" then ClaudeSpec(d, inp)
    else if key == "cursor" then CursorSpec(d, inp)
    else if key == "gemini" then GeminiSpec(d, inp)
    else d
  }

  /** syncTool(key): an unknown key is reported and changes nothing. */
  function SyncToolSpec(d: Disk, key: string, inp: Inputs): Disk {
    match Registry(key)
    case None => d
    case Some(tool) => AdapterSpec(CommandsSpec(TemplateSpec(d, tool), key, tool, inp), key, inp)
  }

  /** The tools of `keys`, in order. */
  function SyncAllSpec(d: Disk, keys: seq<string>, inp: Inputs): Disk {
    if keys == [] then d
    else SyncToolSpec(SyncAllSpec(d, keys[..|keys| - 1], inp), keys[|keys| - 1], inp)
  }

  /** main (lines 437-453): the memory bank is generated only when no tool was
      named. */
  function RunSpec(d: Disk, argv: seq<string>, inp: Inputs): Disk {
    var arg := ToolArg(argv);
    var d1 := SyncAllSpec(d, ToolsToSync(arg), inp);
    if Truthy(arg) then d1 else MemoryBank.MemoryBankSpec(d1, inp.now)
  }

  // ---------------------------------------------------------------------------
  // The methods
  // ---------------------------------------------------------------------------

  method SyncTool(fs: FileSystem, key: string, inp: Inputs)
    modifies fs
    ensures fs.State() == SyncToolSpec(old(fs.State()), key, inp)
    ensures key !in ToolKeys ==> fs.State() == old(fs.State())
  {
    var entry := Registry(key);
    if entry.None? {
      return;
    }
    var tool := entry.value;
    var _ := fs.CopyFile([".ai", "template", tool.templateFile], [tool.outputFile]);
    if key == "gemini" {
      var _ := SyncGeminiCommands(fs, CommandsSource, tool.commandsDir, inp.listing(CommandsSource), Converter(inp.load));
    } else {
      var _ := CopyDirectory(fs, CommandsSource, tool.commandsDir, inp.listing(CommandsSource), MdOnly);
    }
    if key == "claude" {
      SyncClaude(fs, inp);
    } else if key == "cursor" {
      SyncCursor(fs, inp);
    } else if key == "gemini" {
      SyncGemini(fs, inp);
    }
  }

  method SyncClaude(fs: FileSystem, inp: Inputs)
    modifies fs
    ensures fs.State() == ClaudeSpec(old(fs.State()), inp)
  {
    var _ := fs.CopyFile(ClaudeAdapter + ["generator.js"], [".claude", "generator.js"]);
    var _ := CopyDirectory(fs, ClaudeAdapter + ["agents"], [".claude", "agents"], inp.listing(ClaudeAdapter + ["agents"]), MdOnly);
    var _ := CopyDirectory(fs, ClaudeAdapter + ["hooks"], [".claude", "hooks"], inp.listing(ClaudeAdapter + ["hooks"]), Some([".py"]));
    var _ := CopyDirectory(fs, ClaudeAdapter + ["output-styles"], [".claude", "output-styles"], inp.listing(ClaudeAdapter + ["output-styles"]), MdOnly);
    var _ := CopyDirectory(fs, ClaudeAdapter + ["skills"], [".claude", "skills"], inp.listing(ClaudeAdapter + ["skills"]), None);
    fs.EnsureDir([".claude"]);
    fs.WriteFile([".claude", "settings.json"], inp.claudeSettings);
  }

  method SyncCursor(fs: FileSystem, inp: Inputs)
    modifies fs
    ensures fs.State() == CursorSpec(old(fs.State()), inp)
  {
    var _ := fs.CopyFile(CursorAdapter + ["generator.js"], [".cursor", "generator.js"]);
    var _ := CopyDirectory(fs, CursorAdapter + ["rules"], [".cursor", "rules"], inp.listing(CursorAdapter + ["rules"]), MdOnly);
  }

  method SyncGemini(fs: FileSystem, inp: Inputs)
    modifies fs
    ensures fs.State() == GeminiSpec(old(fs.State()), inp)
  {
    var _ := fs.CopyFile(GeminiAdapter + ["generator.js"], [".gemini", "generator.js"]);
    fs.EnsureDir([".gemini", "converters"]);
    var _ := CopyDirectory(fs, GeminiAdapter + ["converters"], [".gemini", "converters"], inp.listing(GeminiAdapter + ["converters"]), None);
    fs.EnsureDir([".gemini"]);
    fs.WriteFile([".gemini", "settings.json"], inp.geminiSettings);
  }

  /** main. */
  method Run(fs: FileSystem, argv: seq<string>, inp: Inputs)
    modifies fs
    ensures fs.State() == RunSpec(old(fs.State()), argv, inp)
  {
    var arg := ToolArg(argv);
    var keys := ToolsToSync(arg);
    SyncAll(fs, keys, inp);
    if !Truthy(arg) {
      MemoryBank.GenerateMemoryBank(fs, inp.now);
    }
  }

  /** main's loop: syncTool on each key in turn. */
  method SyncAll(fs: FileSystem, keys: seq<string>, inp: Inputs)
    modifies fs
    ensures fs.State() == SyncAllSpec(old(fs.State()), keys, inp)
  {
    ghost var start := fs.State();
    for i := 0 to |keys|
      invariant fs.State() == SyncAllSpec(start, keys[..i], inp)
    {
      assert keys[..i + 1][..i] == keys[..i];
      SyncTool(fs, keys[i], inp);
    }
    assert keys[..|keys|] == keys;
  }
}

module SyncProofs {
  import opened Common
  import opened Fs
  import opened Mirror
  import opened MirrorProofs
  import opened GeminiCommands
  import opened GeminiProofs
  import opened Sync
  import MemoryBank

  // ---------------------------------------------------------------------------
  // The --tool argument
  // ---------------------------------------------------------------------------

  /** `--tool=NAME`, as the first `--tool=` argument, names NAME. */
  lemma ToolArgEquals(argv: seq<string>, i: nat, name: string)
    requires i < |argv| && argv[i] == ToolPrefix + name
    requires forall j :: 0 <= j < i ==> !StartsWith(argv[j], ToolPrefix)
    requires name != "" && forall k :: 0 <= k < |name| ==> name[k] != '='
    ensures ToolArg(argv) == Some(name)
  {
    assert StartsWith(argv[i], ToolPrefix);
    assert argv[i][|ToolPrefix|..] == name;
    var f := FirstField(name);
    assert f == name;
  }

  /** `--tool NAME`, with no `--tool=` argument, names the word after the
      first `--tool`. */
  lemma ToolArgSpaced(argv: seq<string>, i: nat)
    requires i + 1 < |argv| && argv[i] == ToolFlag
    requires forall j :: 0 <= j < i ==> argv[j] != ToolFlag
    requires forall j :: 0 <= j < |argv| ==> !StartsWith(argv[j], ToolPrefix)
    ensures ToolArg(argv) == Some(argv[i + 1])
  {
  }

  /** An empty `--tool=` gives way to a later `--tool NAME`. */
  lemma ToolArgEmptyEquals(argv: seq<string>, i: nat, j: nat)
    requires i < |argv| && argv[i] == ToolPrefix
    requires forall k :: 0 <= k < i ==> !StartsWith(argv[k], ToolPrefix)
    requires j + 1 < |argv| && argv[j] == ToolFlag
    requires forall k :: 0 <= k < j ==> argv[k] != ToolFlag
    ensures ToolArg(argv) == Some(argv[j + 1])
  {
    assert StartsWith(argv[i], ToolPrefix);
    assert argv[i][|ToolPrefix|..] == "";
  }

  /** With neither form present there is no tool argument: every tool is
      synced and the memory bank is generated. */
  lemma ToolArgAbsent(argv: seq<string>)
    requires forall j :: 0 <= j < |argv| ==> argv[j] != ToolFlag && !StartsWith(argv[j], ToolPrefix)
    ensures ToolArg(argv) == None
  {
  }

  // ---------------------------------------------------------------------------
  // The run
  // ---------------------------------------------------------------------------

  /** With no tool named, every registered tool is synced and then the
      memory bank is generated. */
  lemma DefaultRun(d: Disk, argv: seq<string>, inp: Inputs)
    requires !Truthy(ToolArg(argv))
    ensures RunSpec(d, argv, inp) == MemoryBank.MemoryBankSpec(SyncAllSpec(d, ToolKeys, inp), inp.now)
  {
  }

  /** The registered tools are synced in declaration order: cursor, claude,
      gemini. */
  lemma DefaultOrder(d: Disk, inp: Inputs)
    ensures SyncAllSpec(d, ToolKeys, inp) == SyncToolSpec(SyncToolSpec(SyncToolSpec(d, "cursor", inp), "claude", inp), "gemini", inp)
  {
    SyncThree(d, "cursor", "claude", "gemini", inp);
  }

  lemma SyncThree(d: Disk, k1: string, k2: string, k3: string, inp: Inputs)
    ensures SyncAllSpec(d, [k1, k2, k3], inp) == SyncToolSpec(SyncToolSpec(SyncToolSpec(d, k1, inp), k2, inp), k3, inp)
  {
    var one, two, three := [k1], [k1, k2], [k1, k2, k3];
    assert one[..0] == [] && two[..1] == one && three[..2] == two;
    var d1 := SyncToolSpec(d, k1, inp);
    var d2 := SyncToolSpec(d1, k2, inp);
    assert SyncAllSpec(d, one, inp) == d1;
    assert SyncAllSpec(d, two, inp) == d2;
  }

  /** A named tool is the only one synced, and no memory bank is generated;
      a name the registry does not know leaves the disk as it was. */
  lemma NamedRun(d: Disk, argv: seq<string>, inp: Inputs)
    requires Truthy(ToolArg(argv))
    ensures RunSpec(d, argv, inp) == SyncToolSpec(d, ToolArg(argv).value, inp)
    ensures ToolArg(argv).value !in ToolKeys ==> RunSpec(d, argv, inp) == d
  {
    var keys := ToolsToSync(ToolArg(argv));
    assert keys == [ToolArg(argv).value];
    assert keys[..|keys| - 1] == [];
    assert SyncAllSpec(d, keys, inp) == SyncToolSpec(d, ToolArg(argv).value, inp);
  }

  // ---------------------------------------------------------------------------
  // The command step of syncTool
  // ---------------------------------------------------------------------------

  /** For Cursor and Claude, the commands directory receives a copy of every
      Markdown command, at the same relative path. */
  lemma CopiedCommands(d: Disk, key: string, inp: Inputs, es: seq<Entry>)
    requires key == "cursor" || key == "claude"
    requires inp.listing(CommandsSource) == Some(es)
    ensures var dir := Registry(key).value.commandsDir;
      CommandsSpec(d, key, Registry(key).value, inp)
      == Disk(d.files + Mirrored(d.files, CommandsSource, dir, Accepted(es, MdOnly)), d.dirs + MadeTree(dir, es))
  {
    MirrorTree(d, CommandsSource, Registry(key).value.commandsDir, es, MdOnly);
  }

  /** For Gemini, the commands directory receives a manifest `X.toml` for
      every readable command `X.md` whose conversion succeeds. */
  lemma ConvertedCommands(d: Disk, inp: Inputs, es: seq<Entry>)
    requires inp.listing(CommandsSource) == Some(es)
    requires AllReadable(d.files, CommandsSource, es)
    ensures var dir := Registry("gemini").value.commandsDir;
      CommandsSpec(d, "gemini", Registry("gemini").value, inp)
      == Disk(d.files + Converted(d.files, CommandsSource, dir, Accepted(es, MdOnly), Converter(inp.load)), d.dirs + MadeTree(dir, es))
  {
    SyncTreeLaw(d, CommandsSource, Registry("gemini").value.commandsDir, es, Converter(inp.load));
  }
}
