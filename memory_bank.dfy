/** generateMemoryBankStructure (scripts/sync-ai-config.js:209-282): creates the
    memory-bank directories, then seeds each starter file only where nothing
    (neither a file nor a directory) is there yet, so a file the user already
    has is never overwritten. The clock is a parameter: `now` is the ISO time
    the dashboard records. */
module MemoryBank {
  import opened Common
  import opened Fs

  const Root: Path := ["memory-bank"]

  /** The directories, in the order they are created (lines 210-222). */
  const Dirs: seq<Path> := [
    Root,
    Root + ["decisions"],
    Root + ["metrics"],
    Root + ["designs"],
    Root + ["requirements"],
    Root + ["validation"],
    Root + ["implementation"]
  ]

  /** A starter file: where it goes and what it holds. */
  datatype Seed = Seed(path: Path, content: string)

  /** The contents of the starter files (lines 224-270). */
  const RootReadme: string :=
    "# Memory Bank\n\nThis directory contains project knowledge and context persistence.\n\n## Structure\n"
    + "- `requirements/` - Requirements and specifications\n"
    + "- `decisions/` - Architecture Decision Records (ADRs)\n"
    + "- `metrics/` - Performance and quality metrics\n"
    + "- `designs/` - Design documents and specifications\n"
    + "- `validation/` - Validation reports\n"
    + "- `implementation/` - Implementation guides\n"
  const DecisionsReadme: string := "# Architecture Decision Records\n\nDocument your architectural decisions here using the ADR format.\n"
  const MetricsReadme: string := "# Project Metrics\n\nTrack project metrics, performance data, and quality indicators.\n"
  const DesignsReadme: string := "# Design Documents\n\nStore design specifications, diagrams, and technical documentation.\n"
  const RequirementsReadme: string := "# Requirements\n\nProject requirements and specifications.\n"
  const ValidationReadme: string := "# Validation Reports\n\nValidation and testing reports.\n"
  const ImplementationReadme: string := "# Implementation Guides\n\nImplementation documentation and guides.\n"
  const Registry: string := "# ADR Registry\nadrs: []\n"

  function Dashboard(now: string): string {
    "{\n  \"version\": \"1.0.0\",\n  \"metrics\": {},\n  \"last_updated\": \"" + now + "\"\n}\n"
  }

  /** The starter files, in the order they are considered (lines 224-270). */
  function Seeds(now: string): seq<Seed> {
    [
      Seed(Root + ["README.md"], RootReadme),
      Seed(Root + ["decisions", "README.md"], DecisionsReadme),
      Seed(Root + ["metrics", "README.md"], MetricsReadme),
      Seed(Root + ["designs", "README.md"], DesignsReadme),
      Seed(Root + ["requirements", "README.md"], RequirementsReadme),
      Seed(Root + ["validation", "README.md"], ValidationReadme),
      Seed(Root + ["implementation", "README.md"], ImplementationReadme),
      Seed(Root + ["decisions", "registry.yaml"], Registry),
      Seed(Root + ["metrics", "dashboard.json"], Dashboard(now))
    ]
  }

  // ---------------------------------------------------------------------------
  // The disk after each step
  // ---------------------------------------------------------------------------

  /** ensureDir on each of `ps` in turn. */
  function EnsureDirsSpec(d: Disk, ps: seq<Path>): Disk {
    if ps == [] then d
    else EnsureDirSpec(EnsureDirsSpec(d, ps[..|ps| - 1]), ps[|ps| - 1])
  }

  /** The seeding loop (lines 272-279): `fs.access` failing is "nothing there". */
  function SeedSpec(d: Disk, ss: seq<Seed>): Disk {
    if ss == [] then d
    else
      var d1 := SeedSpec(d, ss[..|ss| - 1]);
      var s := ss[|ss| - 1];
      if Exists(d1, s.path) then d1 else WriteSpec(d1, s.path, s.content)
  }

  function PopulateSpec(d: Disk, ps: seq<Path>, ss: seq<Seed>): Disk {
    SeedSpec(EnsureDirsSpec(d, ps), ss)
  }

  /** The whole of generateMemoryBankStructure; `SeedingLaw` says what it leaves. */
  function MemoryBankSpec(d: Disk, now: string): Disk {
    PopulateSpec(d, Dirs, Seeds(now))
  }

  // ---------------------------------------------------------------------------
  // What the seeding leaves: the existing disk plus the seeds that were missing
  // ---------------------------------------------------------------------------

  function PathsOf(ss: seq<Seed>): set<Path> {
    if ss == [] then {} else PathsOf(ss[..|ss| - 1]) + {ss[|ss| - 1].path}
  }

  /** The content of the first seed for `p`. */
  function ContentOf(ss: seq<Seed>, p: Path): string
    requires p in PathsOf(ss)
  {
    var init := ss[..|ss| - 1];
    if p in PathsOf(init) then ContentOf(init, p) else ss[|ss| - 1].content
  }

  /** The seeds for which nothing was at their path. */
  function Missing(d: Disk, ss: seq<Seed>): map<Path, string> {
    map p | p in PathsOf(ss) && !Exists(d, p) :: ContentOf(ss, p)
  }

  // ---------------------------------------------------------------------------
  // The method
  // ---------------------------------------------------------------------------

  method GenerateMemoryBank(fs: FileSystem, now: string)
    modifies fs
    ensures fs.State() == MemoryBankSpec(old(fs.State()), now)
  {
    var ps, ss := Dirs, Seeds(now);
    Populate(fs, ps, ss);
  }

  /** Creates the directories `ps`, then writes the seeds `ss` that are missing. */
  method Populate(fs: FileSystem, ps: seq<Path>, ss: seq<Seed>)
    modifies fs
    ensures fs.State() == PopulateSpec(old(fs.State()), ps, ss)
  {
    EnsureDirs(fs, ps);
    SeedAll(fs, ss);
  }

  method EnsureDirs(fs: FileSystem, ps: seq<Path>)
    modifies fs
    ensures fs.State() == EnsureDirsSpec(old(fs.State()), ps)
  {
    ghost var start := fs.State();
    for i := 0 to |ps|
      invariant fs.State() == EnsureDirsSpec(start, ps[..i])
    {
      assert ps[..i + 1][..i] == ps[..i];
      fs.EnsureDir(ps[i]);
    }
    assert ps[..|ps|] == ps;
  }

  /** Writes each seed whose path holds nothing yet. */
  method SeedAll(fs: FileSystem, ss: seq<Seed>)
    modifies fs
    ensures fs.State() == SeedSpec(old(fs.State()), ss)
  {
    ghost var start := fs.State();
    for i := 0 to |ss|
      invariant fs.State() == SeedSpec(start, ss[..i])
    {
      assert ss[..i + 1][..i] == ss[..i];
      if !fs.Exists(ss[i].path) {
        fs.WriteFile(ss[i].path, ss[i].content);
      }
    }
    assert ss[..|ss|] == ss;
  }

  // ---------------------------------------------------------------------------
  // Laws
  // ---------------------------------------------------------------------------

  /** Seeding adds exactly the missing seeds, each with the content of its
      first occurrence, and touches nothing else. */
  lemma {:induction false} SeedLaw(d: Disk, ss: seq<Seed>)
    ensures SeedSpec(d, ss) == Disk(d.files + Missing(d, ss), d.dirs)
  {
    if ss != [] {
      var init, s := ss[..|ss| - 1], ss[|ss| - 1];
      SeedLaw(d, init);
      MissingStep(d, ss);
      if !(s.path in PathsOf(init) || Exists(d, s.path)) {
        UpdateAfterUnion(d.files, Missing(d, init), s.path, s.content);
      }
    }
  }

  /** The missing seeds of `ss` are those of all but its last, plus the last
      when its path is new and holds nothing. */
  lemma MissingStep(d: Disk, ss: seq<Seed>)
    requires ss != []
    ensures var init, s := ss[..|ss| - 1], ss[|ss| - 1];
      Missing(d, ss) == if s.path in PathsOf(init) || Exists(d, s.path) then Missing(d, init) else Missing(d, init)[s.path := s.content]
  {
  }

  lemma UpdateAfterUnion(a: map<Path, string>, b: map<Path, string>, p: Path, v: string)
    ensures (a + b)[p := v] == a + b[p := v]
  {
  }

  /** Creating directories never touches a file. */
  lemma {:induction false} EnsureDirsKeepsFiles(d: Disk, ps: seq<Path>)
    ensures EnsureDirsSpec(d, ps).files == d.files
    ensures d.dirs <= EnsureDirsSpec(d, ps).dirs
    ensures forall i :: 0 <= i < |ps| && ps[i] != [] ==> ps[i] in EnsureDirsSpec(d, ps).dirs
  {
    if ps != [] {
      EnsureDirsKeepsFiles(d, ps[..|ps| - 1]);
    }
  }

  /** Creating the directories and then seeding never overwrites an existing
      file, leaves every directory and every seed existing, and adds no file
      but a seed. */
  lemma SeedingLaw(d: Disk, ps: seq<Path>, ss: seq<Seed>)
    requires forall i :: 0 <= i < |ps| ==> ps[i] != []
    ensures forall p :: p in d.files ==> p in PopulateSpec(d, ps, ss).files && PopulateSpec(d, ps, ss).files[p] == d.files[p]
    ensures forall i :: 0 <= i < |ps| ==> ps[i] in PopulateSpec(d, ps, ss).dirs
    ensures forall i :: 0 <= i < |ss| ==> Exists(PopulateSpec(d, ps, ss), ss[i].path)
    ensures forall p :: p in PopulateSpec(d, ps, ss).files && p !in d.files ==> p in PathsOf(ss)
  {
    var d1 := EnsureDirsSpec(d, ps);
    EnsureDirsKeepsFiles(d, ps);
    SeedLaw(d1, ss);
    forall i | 0 <= i < |ss|
      ensures ss[i].path in PathsOf(ss)
    {
      SeedIn(ss, i);
    }
  }

  lemma {:induction false} SeedIn(ss: seq<Seed>, i: nat)
    requires i < |ss|
    ensures ss[i].path in PathsOf(ss)
  {
    if i < |ss| - 1 {
      SeedIn(ss[..|ss| - 1], i);
    }
  }

  /** Seeding twice is seeding once: a second run finds every seed present. */
  lemma SeedIdempotent(d: Disk, ss: seq<Seed>)
    ensures SeedSpec(SeedSpec(d, ss), ss) == SeedSpec(d, ss)
  {
    var d1 := SeedSpec(d, ss);
    SeedLaw(d, ss);
    SeedLaw(d1, ss);
    assert Missing(d1, ss) == map[];
    assert d1.files + map[] == d1.files;
  }
}
