/** scripts/template-generator.js: renders a command's output templates into
    the project, never overwriting a file whose output is marked
    `overwrite: false`.

    The loaded configuration, the global metadata (package.json, git, the
    environment and the clock) and Mustache are parameters (see `Env`); the
    script reloads the configuration on every call, which here is one value. */
module TemplateGenerator {
  import opened Common
  import opened Fs

  /** One output of a command in config.yaml. */
  datatype Output = Output(kind: string, template: string, location: Path, filename: string, overwrite: bool)

  /** A command of config.yaml: its name, its phase and its outputs. */
  datatype Command = Command(name: string, phase: string, outputs: seq<Output>)

  /** A Mustache view: the names a template may mention, with their values. */
  type Context = map<string, string>

  /** What the generator reads besides the disk: the project root, the
      configuration's commands, the global metadata and Mustache's render. */
  datatype Env = Env(root: Path, commands: map<string, Command>, global: Context, render: (string, Context) -> string)

  /** What generateFromTemplate throws. */
  datatype GenError =
    | UnknownCommand(command: string)
    | UnknownOutputType(command: string, kind: string)
    | TemplateNotFound(path: Path)
    | TemplateUnreadable(path: Path)

  /** TEMPLATE_DIR (line 17). */
  function TemplateDir(root: Path): Path {
    root + [".ai", "template", "outputs"]
  }

  function TemplatePath(env: Env, o: Output): Path {
    TemplateDir(env.root) + [o.template]
  }

  /** `{...getGlobalMetadata(), ...data}` (lines 92-95): the caller's data wins. */
  function MergeContext(global: Context, data: Context): (r: Context)
    ensures r.Keys == global.Keys + data.Keys
    ensures forall k :: k in data ==> r[k] == data[k]
    ensures forall k :: k in global && k !in data ==> r[k] == global[k]
  {
    global + data
  }

  /** `outputs.find(o => o.type === kind)` (line 77): the first output of that type. */
  function FindOutput(outputs: seq<Output>, kind: string): (r: Option<Output>)
    ensures r.None? <==> forall i :: 0 <= i < |outputs| ==> outputs[i].kind != kind
    ensures r.Some? ==> exists i :: 0 <= i < |outputs| && outputs[i] == r.value && r.value.kind == kind
                          && forall j :: 0 <= j < i ==> outputs[j].kind != kind
  {
    match Find(outputs, (o: Output) => o.kind == kind)
    case None => None
    case Some(i) => Some(outputs[i])
  }

  /** The output directory, `path.join(ROOT_DIR, output.location)` (line 101). */
  function OutputDir(env: Env, o: Output): Path {
    env.root + o.location
  }

  /** `path.join(outputDir, Mustache.render(output.filename, view))` (lines 102-103). */
  function OutputPath(env: Env, o: Output, ctx: Context): (p: Path)
    ensures |p| == |OutputDir(env, o)| + 1 && p[..|OutputDir(env, o)|] == OutputDir(env, o)
    ensures p[|OutputDir(env, o)|] == env.render(o.filename, ctx)
  {
    OutputDir(env, o) + [env.render(o.filename, ctx)]
  }

  // ---------------------------------------------------------------------------
  // generateFromTemplate (lines 69-121)
  // ---------------------------------------------------------------------------

  /** The disk afterwards, and the path written (`None` when the output was
      skipped), or what was thrown. */
  function GenerateSpec(d: Disk, env: Env, command: string, kind: string, data: Context): (Disk, Result<Option<Path>, GenError>) {
    if command !in env.commands then (d, Err(UnknownCommand(command)))
    else
      match FindOutput(env.commands[command].outputs, kind)
      case None => (d, Err(UnknownOutputType(command, kind)))
      case Some(o) =>
        var tp := TemplatePath(env, o);
        if !Exists(d, tp) then (d, Err(TemplateNotFound(tp)))
        else if tp !in d.files then (d, Err(TemplateUnreadable(tp)))
        else
          var ctx := MergeContext(env.global, data);
          var dir := OutputDir(env, o);
          var path := OutputPath(env, o, ctx);
          var d1 := if Exists(d, dir) then d else EnsureDirSpec(d, dir);
          if Exists(d1, path) && !o.overwrite then (d1, Ok(None))
          else (WriteSpec(d1, path, env.render(d.files[tp], ctx)), Ok(Some(path)))
  }

  method GenerateFromTemplate(fs: FileSystem, env: Env, command: string, kind: string, data: Context)
      returns (r: Result<Option<Path>, GenError>)
    modifies fs
    ensures (fs.State(), r) == GenerateSpec(old(fs.State()), env, command, kind, data)
    ensures r.Err? ==> fs.State() == old(fs.State())
  {
    if command !in env.commands {
      return Err(UnknownCommand(command));
    }
    var found := FindOutput(env.commands[command].outputs, kind);
    if found.None? {
      return Err(UnknownOutputType(command, kind));
    }
    var o := found.value;
    var tp := TemplatePath(env, o);
    if !fs.Exists(tp) {
      return Err(TemplateNotFound(tp));
    }
    if tp !in fs.files {
      return Err(TemplateUnreadable(tp));
    }
    var template := fs.files[tp];
    var ctx := MergeContext(env.global, data);
    var rendered := env.render(template, ctx);
    var dir := OutputDir(env, o);
    var path := OutputPath(env, o, ctx);
    if !fs.Exists(dir) {
      fs.EnsureDir(dir);
    }
    if fs.Exists(path) && !o.overwrite {
      return Ok(None);
    }
    fs.WriteFile(path, rendered);
    return Ok(Some(path));
  }

  // ---------------------------------------------------------------------------
  // generateCommandOutputs (lines 126-151)
  // ---------------------------------------------------------------------------

  /** The loop over `outs`: each output is generated by its type; a throw is
      caught and the loop goes on; the paths returned are collected. */
  function OutputsSpec(d: Disk, env: Env, command: string, outs: seq<Output>, data: Context): (Disk, seq<Path>) {
    if outs == [] then (d, [])
    else
      var (d1, ps) := OutputsSpec(d, env, command, outs[..|outs| - 1], data);
      var (d2, r) := GenerateSpec(d1, env, command, outs[|outs| - 1].kind, data);
      if r.Ok? && r.value.Some? then (d2, ps + [r.value.value]) else (d2, ps)
  }

  function CommandOutputsSpec(d: Disk, env: Env, command: string, data: Context): (Disk, Result<seq<Path>, GenError>) {
    if command !in env.commands then (d, Err(UnknownCommand(command)))
    else
      var (d1, ps) := OutputsSpec(d, env, command, env.commands[command].outputs, data);
      (d1, Ok(ps))
  }

  method GenerateCommandOutputs(fs: FileSystem, env: Env, command: string, data: Context)
      returns (r: Result<seq<Path>, GenError>)
    modifies fs
    ensures (fs.State(), r) == CommandOutputsSpec(old(fs.State()), env, command, data)
  {
    if command !in env.commands {
      return Err(UnknownCommand(command));
    }
    var outs := env.commands[command].outputs;
    ghost var start := fs.State();
    var generated: seq<Path> := [];
    for i := 0 to |outs|
      invariant (fs.State(), generated) == OutputsSpec(start, env, command, outs[..i], data)
    {
      assert outs[..i + 1][..i] == outs[..i];
      var res := GenerateFromTemplate(fs, env, command, outs[i].kind, data);
      if res.Ok? && res.value.Some? {
        generated := generated + [res.value.value];
      }
    }
    assert outs[..|outs|] == outs;
    return Ok(generated);
  }

  // ---------------------------------------------------------------------------
  // initializeTemplateStructure (lines 156-176)
  // ---------------------------------------------------------------------------

  /** The output directories of the commands `keys`. */
  function LocationsOf(env: Env, keys: set<string>): set<Path>
    requires keys <= env.commands.Keys
  {
    set k, o | k in keys && o in env.commands[k].outputs :: OutputDir(env, o)
  }

  /** Every output directory of the configuration, each once. */
  function Locations(env: Env): set<Path> {
    LocationsOf(env, env.commands.Keys)
  }

  /** The directories `mkdirSync(x, { recursive: true })` adds for each `x` of
      `xs` that did not exist on `d`. */
  function Made(d: Disk, xs: set<Path>): set<Path> {
    set x, p | x in xs && !Exists(d, x) && p in Ancestors(x) :: p
  }

  function InitSpec(d: Disk, xs: set<Path>): Disk {
    d.(dirs := d.dirs + Made(d, xs))
  }

  method InitializeTemplateStructure(fs: FileSystem, env: Env)
    modifies fs
    ensures fs.State() == InitSpec(old(fs.State()), Locations(env))
  {
    var dirs := CollectLocations(env);
    CreateMissing(fs, dirs);
  }

  /** The nested loops that fill the set of directories (lines 158-165). */
  method CollectLocations(env: Env) returns (dirs: set<Path>)
    ensures dirs == Locations(env)
  {
    dirs := {};
    var keys := env.commands.Keys;
    while keys != {}
      invariant keys <= env.commands.Keys
      invariant dirs == LocationsOf(env, env.commands.Keys - keys)
      decreases keys
    {
      var k :| k in keys;
      var outs := env.commands[k].outputs;
      ghost var before := dirs;
      for j := 0 to |outs|
        invariant dirs == before + set o | o in outs[..j] :: OutputDir(env, o)
      {
        assert forall o :: o in outs[..j + 1] <==> o in outs[..j] || o == outs[j];
        dirs := dirs + {OutputDir(env, outs[j])};
      }
      assert outs[..|outs|] == outs;
      assert LocationsOf(env, env.commands.Keys - (keys - {k}))
        == LocationsOf(env, env.commands.Keys - keys) + set o | o in outs :: OutputDir(env, o);
      keys := keys - {k};
    }
  }

  /** The loop that creates each directory not already there (lines 168-173). */
  method CreateMissing(fs: FileSystem, xs: set<Path>)
    modifies fs
    ensures fs.State() == InitSpec(old(fs.State()), xs)
  {
    ghost var start := fs.State();
    var todo := xs;
    while todo != {}
      invariant todo <= xs
      invariant fs.files == start.files
      invariant fs.dirs == start.dirs + Made(start, xs - todo)
      decreases todo
    {
      var x :| x in todo;
      ghost var done := xs - todo;
      if !fs.Exists(x) {
        fs.EnsureDir(x);
        MadeNew(start, done, x);
      } else {
        MadeKnown(start, done, x);
      }
      assert xs - (todo - {x}) == done + {x};
      todo := todo - {x};
    }
  }

  /** A directory that does not exist yet adds itself and its ancestors. */
  lemma MadeNew(d: Disk, done: set<Path>, x: Path)
    requires !Exists(d, x)
    ensures Made(d, done + {x}) == Made(d, done) + Ancestors(x)
  {
  }

  /** A path that exists already, at the start or through an earlier
      directory, adds nothing. */
  lemma MadeKnown(d: Disk, done: set<Path>, x: Path)
    requires x in d.files || x in d.dirs + Made(d, done)
    ensures Made(d, done + {x}) == Made(d, done)
  {
    if !Exists(d, x) {
      var y: Path :| y in done && !Exists(d, y) && x in Ancestors(y);
      AncestorOfAncestor(x, y);
    }
  }

  /** A directory's ancestors are among those of any directory below it. */
  lemma AncestorOfAncestor(x: Path, y: Path)
    requires x in Ancestors(y)
    ensures Ancestors(x) <= Ancestors(y)
  {
    forall q | q in Ancestors(x)
      ensures q in Ancestors(y)
    {
      assert q == y[..|q|];
    }
  }
}

module TemplateProofs {
  import opened Common
  import opened Fs
  import opened TemplateGenerator

  // ---------------------------------------------------------------------------
  // generateFromTemplate
  // ---------------------------------------------------------------------------

  /** Every throw happens before anything is written: an unknown command, an
      output type the command does not list, a missing or unreadable template. */
  lemma GenerateErrors(d: Disk, env: Env, command: string, kind: string, data: Context)
    ensures var (d', r) := GenerateSpec(d, env, command, kind, data);
      && (r.Err? ==> d' == d)
      && (r == Err(UnknownCommand(command)) <==> command !in env.commands)
      && (r == Err(UnknownOutputType(command, kind)) <==>
            command in env.commands && FindOutput(env.commands[command].outputs, kind).None?)
      && (r.Err? <==>
            (command !in env.commands || FindOutput(env.commands[command].outputs, kind).None?
             || TemplatePath(env, FindOutput(env.commands[command].outputs, kind).value) !in d.files))
  {
  }

  /** Once the lookups succeed: the output directory exists afterwards; an
      existing output path with `overwrite` off is skipped (null, content
      unchanged); otherwise the rendered template is written at `location`
      joined with the rendered file name, and that path is returned. No other
      file changes. */
  lemma GenerateOutcome(d: Disk, env: Env, command: string, kind: string, data: Context, o: Output)
    requires env.root != []
    requires command in env.commands && FindOutput(env.commands[command].outputs, kind) == Some(o)
    requires TemplatePath(env, o) in d.files
    ensures var ctx := MergeContext(env.global, data);
      var path := OutputPath(env, o, ctx);
      var (d', r) := GenerateSpec(d, env, command, kind, data);
      && OutputDir(env, o) in d'.dirs + d'.files.Keys
      && (Exists(d, path) && !o.overwrite ==> r == Ok(None) && d'.files == d.files)
      && (!(Exists(d, path) && !o.overwrite) ==>
            r == Ok(Some(path)) && d'.files == d.files[path := env.render(d.files[TemplatePath(env, o)], ctx)])
  {
    var ctx := MergeContext(env.global, data);
    var dir, path := OutputDir(env, o), OutputPath(env, o, ctx);
    assert path !in Ancestors(dir);
    assert dir != [];
  }

  /** Generating twice leaves what generating once left, when the output is
      not its own template: the second run finds the file and skips it, or
      rewrites the same text. */
  /** The script reads the global metadata afresh on every call (the git
      state, the clock), so a second generation may render with another
      context `g2`. When `overwrite` is off and the rendered output path is the
      same as the first time, the second run returns null and changes
      nothing. When it is on, the second run writes its own rendering of the
      template over the output and returns that path; no directory is added. */
  lemma GenerateAgain(d: Disk, env: Env, g2: Context, command: string, kind: string, data: Context)
    requires GenerateSpec(d, env, command, kind, data).1.Ok?
    requires var o := FindOutput(env.commands[command].outputs, kind).value;
      TemplatePath(env, o) != OutputPath(env, o, MergeContext(env.global, data))
    ensures var o := FindOutput(env.commands[command].outputs, kind).value;
      var env2 := env.(global := g2);
      var d' := GenerateSpec(d, env, command, kind, data).0;
      !o.overwrite && OutputPath(env2, o, MergeContext(g2, data)) == OutputPath(env, o, MergeContext(env.global, data)) ==>
        GenerateSpec(d', env2, command, kind, data) == (d', Ok(None))
    ensures var o := FindOutput(env.commands[command].outputs, kind).value;
      var env2 := env.(global := g2);
      var ctx2 := MergeContext(g2, data);
      var path2 := OutputPath(env2, o, ctx2);
      var d' := GenerateSpec(d, env, command, kind, data).0;
      var (d'', r) := GenerateSpec(d', env2, command, kind, data);
      o.overwrite ==>
        && r == Ok(Some(path2))
        && d''.files == d'.files[path2 := env.render(d.files[TemplatePath(env, o)], ctx2)]
        && d''.dirs == d'.dirs
  {
    var o := FindOutput(env.commands[command].outputs, kind).value;
    var tp := TemplatePath(env, o);
    var d' := GenerateSpec(d, env, command, kind, data).0;
    var dir := OutputDir(env, o);
    assert d'.files[tp] == d.files[tp];
    assert Exists(d', dir) || EnsureDirSpec(d', dir) == d';
  }

  lemma GenerateIdempotent(d: Disk, env: Env, command: string, kind: string, data: Context)
    requires GenerateSpec(d, env, command, kind, data).1.Ok?
    requires var o := FindOutput(env.commands[command].outputs, kind).value;
      TemplatePath(env, o) != OutputPath(env, o, MergeContext(env.global, data))
    ensures var d' := GenerateSpec(d, env, command, kind, data).0;
      GenerateSpec(d', env, command, kind, data).0 == d'
    ensures var d' := GenerateSpec(d, env, command, kind, data).0;
      !FindOutput(env.commands[command].outputs, kind).value.overwrite ==>
        GenerateSpec(d', env, command, kind, data).1 == Ok(None)
  {
    var o := FindOutput(env.commands[command].outputs, kind).value;
    var ctx := MergeContext(env.global, data);
    var tp, path := TemplatePath(env, o), OutputPath(env, o, ctx);
    var d' := GenerateSpec(d, env, command, kind, data).0;
    var dir := OutputDir(env, o);
    assert d'.files[tp] == d.files[tp];
    assert Exists(d', path);
    assert Exists(d', dir) || EnsureDirSpec(d', dir) == d';
  }

  // ---------------------------------------------------------------------------
  // generateCommandOutputs
  // ---------------------------------------------------------------------------

  /** Generating adds files and directories; it never removes one. */
  lemma GenerateGrows(d: Disk, env: Env, command: string, kind: string, data: Context)
    ensures d.files.Keys <= GenerateSpec(d, env, command, kind, data).0.files.Keys
    ensures d.dirs <= GenerateSpec(d, env, command, kind, data).0.dirs
  {
  }

  /** Every path returned names a file that exists afterwards, at the output
      path of one of the command's outputs, and there is at most one per
      output. */
  lemma {:induction false} GeneratedFiles(d: Disk, env: Env, command: string, outs: seq<Output>, data: Context)
    requires command in env.commands
    ensures var (d', ps) := OutputsSpec(d, env, command, outs, data);
      && |ps| <= |outs|
      && d.files.Keys <= d'.files.Keys
      && (forall p :: p in ps ==> p in d'.files)
      && (forall p :: p in ps ==> exists o :: o in env.commands[command].outputs && p == OutputPath(env, o, MergeContext(env.global, data)))
  {
    if outs != [] {
      var init, last := outs[..|outs| - 1], outs[|outs| - 1];
      GeneratedFiles(d, env, command, init, data);
      var (d1, ps1) := OutputsSpec(d, env, command, init, data);
      GenerateGrows(d1, env, command, last.kind, data);
      var (d2, r) := GenerateSpec(d1, env, command, last.kind, data);
      if r.Ok? && r.value.Some? {
        var o := FindOutput(env.commands[command].outputs, last.kind).value;
        assert r.value.value == OutputPath(env, o, MergeContext(env.global, data));
      }
    }
  }

  /** An output that throws is skipped: it changes nothing and adds no path. */
  lemma OutputErrorSkipped(d: Disk, env: Env, command: string, outs: seq<Output>, o: Output, data: Context)
    requires GenerateSpec(OutputsSpec(d, env, command, outs, data).0, env, command, o.kind, data).1.Err?
    ensures OutputsSpec(d, env, command, outs + [o], data) == OutputsSpec(d, env, command, outs, data)
  {
    assert (outs + [o])[..|outs|] == outs;
  }

  /** The loop never stops early: the outputs `a + b` do what `a` does and
      then what `b` does from there, and the paths are those of `a` then
      those of `b`. */
  lemma {:induction false} OutputsCompose(d: Disk, env: Env, command: string, a: seq<Output>, b: seq<Output>, data: Context)
    ensures var (d1, ps1) := OutputsSpec(d, env, command, a, data);
      var (d2, ps2) := OutputsSpec(d1, env, command, b, data);
      OutputsSpec(d, env, command, a + b, data) == (d2, ps1 + ps2)
  {
    if b == [] {
      assert a + b == a;
      var ps1 := OutputsSpec(d, env, command, a, data).1;
      assert ps1 + [] == ps1;
    } else {
      var init, last := b[..|b| - 1], b[|b| - 1];
      OutputsCompose(d, env, command, a, init, data);
      assert (a + b)[..|a + b| - 1] == a + init;
      assert (a + b)[|a + b| - 1] == last;
      var (d1, ps1) := OutputsSpec(d, env, command, a, data);
      var (dI, psI) := OutputsSpec(d1, env, command, init, data);
      var (d2, r) := GenerateSpec(dI, env, command, last.kind, data);
      if r.Ok? && r.value.Some? {
        assert ps1 + psI + [r.value.value] == ps1 + (psI + [r.value.value]);
      }
    }
  }

  // ---------------------------------------------------------------------------
  // initializeTemplateStructure
  // ---------------------------------------------------------------------------

  /** Afterwards every (non-empty) output directory exists, and no file
      changed. */
  lemma InitComplete(d: Disk, xs: set<Path>)
    ensures InitSpec(d, xs).files == d.files
    ensures forall x :: x in xs && x != [] ==> Exists(InitSpec(d, xs), x)
  {
    forall x | x in xs && x != [] && !Exists(d, x)
      ensures x in Made(d, xs)
    {
      assert x in Ancestors(x);
    }
  }

  /** Initializing twice is initializing once. */
  lemma InitIdempotent(d: Disk, xs: set<Path>)
    ensures InitSpec(InitSpec(d, xs), xs) == InitSpec(d, xs)
  {
    var d' := InitSpec(d, xs);
    InitComplete(d, xs);
    assert Made(d', xs) == {};
  }
}
