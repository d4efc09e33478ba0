/** syncGeminiCommands (scripts/sync-ai-config.js:137-173): mirrors the
    Markdown commands of a source tree into a target tree as TOML manifests,
    `X.md` becoming `X.toml`, and counts the manifests written.

    A command whose conversion gives no manifest is skipped and not counted.
    A command that cannot be read throws out of the loop of its directory:
    that directory's own catch turns it into a count of 0 for the directory
    (the manifests already written stay), and its parent goes on.

    The converter is a parameter, `convert(text, fileName)`: the script's
    convertMdToToml with its YAML loader fixed, `ConvertMdToToml(_, _, load)`
    (see `Sync.Converter`). */
module GeminiCommands {
  import opened Common
  import opened Text
  import opened Fs
  import opened Mirror

  const MdSuffix: string := ".md"
  const TomlSuffix: string := ".toml"

  /** The `.md` suffix filter: the commands syncGeminiCommands converts, and
      the filter syncTool gives copyDirectory for Markdown trees. */
  const MdOnly: Option<seq<string>> := Some([MdSuffix])

  /** `path.basename(name, '.md')` for a name ending with `.md`. */
  function BaseName(n: string): string
    requires EndsWith(n, MdSuffix)
  {
    n[..|n| - 3]
  }

  /** The manifest's file name: `${fileName}.toml`. */
  function TomlName(n: string): (r: string)
    requires EndsWith(n, MdSuffix)
    ensures EndsWith(r, TomlSuffix)
  {
    assert (BaseName(n) + TomlSuffix)[|BaseName(n)|..] == TomlSuffix;
    BaseName(n) + TomlSuffix
  }

  // ---------------------------------------------------------------------------
  // The disk and the count after the sync, entry by entry
  // ---------------------------------------------------------------------------

  /** One directory level: the disk, and the count so far, which is `None`
      once a read has thrown (the remaining entries are then skipped). */
  function SyncEntriesSpec(d: Disk, src: Path, tgt: Path, es: seq<Entry>, convert: (string, string) -> Option<string>): (Disk, Option<nat>)
    decreases es, 0
  {
    if es == [] then (d, Some(0))
    else
      var (d1, c1) := SyncEntriesSpec(d, src, tgt, es[..|es| - 1], convert);
      if c1.None? then (d1, None)
      else
        var (d2, c2) := SyncEntrySpec(d1, src, tgt, es[|es| - 1], convert);
        (d2, if c2.None? then None else Some(c1.value + c2.value))
  }

  function SyncEntrySpec(d: Disk, src: Path, tgt: Path, e: Entry, convert: (string, string) -> Option<string>): (Disk, Option<nat>)
    decreases e
  {
    match e
    case Dir(n, ch) =>
      var (d1, c) := SyncTreeSpec(d, src + [n], tgt + [n], ch, convert);
      (d1, Some(c))
    case File(n) =>
      if !EndsWith(n, MdSuffix) then (d, Some(0))
      else if src + [n] !in d.files then (d, None)
      else
        (match convert(d.files[src + [n]], BaseName(n))
         case None => (d, Some(0))
         case Some(toml) => (WriteSpec(d, tgt + [TomlName(n)], toml), Some(1)))
    case Other(_) => (d, Some(0))
  }

  /** syncGeminiCommands on a directory that exists: the target is created,
      then the entries are converted in order; a read that throws makes the
      level count 0. */
  function SyncTreeSpec(d: Disk, src: Path, tgt: Path, es: seq<Entry>, convert: (string, string) -> Option<string>): (Disk, nat)
    decreases es, 1
  {
    var (d1, c) := SyncEntriesSpec(EnsureDirSpec(d, tgt), src, tgt, es, convert);
    (d1, if c.None? then 0 else c.value)
  }

  /** syncGeminiCommands: a missing source directory gives 0, but the target
      is created all the same. */
  function SyncGeminiSpec(d: Disk, src: Path, tgt: Path, listing: Option<seq<Entry>>, convert: (string, string) -> Option<string>): (Disk, nat) {
    match listing
    case None => (EnsureDirSpec(d, tgt), 0)
    case Some(es) => SyncTreeSpec(d, src, tgt, es, convert)
  }

  // ---------------------------------------------------------------------------
  // The methods
  // ---------------------------------------------------------------------------

  /** syncGeminiCommands (scripts/sync-ai-config.js:137-173). */
  method SyncGeminiCommands(fs: FileSystem, src: Path, tgt: Path, listing: Option<seq<Entry>>, convert: (string, string) -> Option<string>)
      returns (count: nat)
    modifies fs
    ensures (fs.State(), count) == SyncGeminiSpec(old(fs.State()), src, tgt, listing, convert)
  {
    if listing.None? {
      fs.EnsureDir(tgt);
      count := 0;
    } else {
      count := SyncTree(fs, src, tgt, listing.value, convert);
    }
  }

  /** syncGeminiCommands on a source directory whose listing is `es`. */
  method SyncTree(fs: FileSystem, src: Path, tgt: Path, es: seq<Entry>, convert: (string, string) -> Option<string>)
      returns (count: nat)
    modifies fs
    decreases es
    ensures (fs.State(), count) == SyncTreeSpec(old(fs.State()), src, tgt, es, convert)
  {
    fs.EnsureDir(tgt);
    ghost var start := fs.State();
    count := 0;
    var i := 0;
    while i < |es|
      invariant 0 <= i <= |es|
      invariant SyncEntriesSpec(start, src, tgt, es[..i], convert) == (fs.State(), Some(count))
    {
      SyncEntriesNext(start, src, tgt, es, i, convert);
      var c := SyncEntry(fs, src, tgt, es[i], convert);
      if c.None? {
        // fs.readFile threw ENOENT, which this level's catch turns into 0.
        AbortedStaysAborted(start, src, tgt, es, i + 1, convert);
        assert es[..|es|] == es;
        count := 0;
        return;
      }
      count := count + c.value;
      i := i + 1;
    }
    assert es[..|es|] == es;
  }

  /** The loop body of syncGeminiCommands for one entry: `None` when a read
      throws. */
  method SyncEntry(fs: FileSystem, src: Path, tgt: Path, e: Entry, convert: (string, string) -> Option<string>)
      returns (c: Option<nat>)
    modifies fs
    decreases e
    ensures (fs.State(), c) == SyncEntrySpec(old(fs.State()), src, tgt, e, convert)
  {
    match e
    case Dir(n, ch) =>
      var sub := SyncTree(fs, src + [n], tgt + [n], ch, convert);
      c := Some(sub);
    case File(n) =>
      c := SyncFile(fs, src, tgt, n, convert);
    case Other(_) =>
      c := Some(0);
  }

  /** The loop body of syncGeminiCommands for a file: `None` when reading it
      throws. */
  method SyncFile(fs: FileSystem, src: Path, tgt: Path, n: string, convert: (string, string) -> Option<string>)
      returns (c: Option<nat>)
    modifies fs
    ensures (fs.State(), c) == SyncEntrySpec(old(fs.State()), src, tgt, File(n), convert)
  {
    if !EndsWith(n, MdSuffix) {
      return Some(0);
    }
    if src + [n] !in fs.files {
      return None;
    }
    var toml := convert(fs.files[src + [n]], BaseName(n));
    if toml.Some? {
      fs.WriteFile(tgt + [TomlName(n)], toml.value);
      c := Some(1);
    } else {
      c := Some(0);
    }
  }

  /** One more entry of a level, as the definition takes it. */
  lemma SyncEntriesNext(d: Disk, src: Path, tgt: Path, es: seq<Entry>, i: nat, convert: (string, string) -> Option<string>)
    requires i < |es|
    ensures SyncEntriesSpec(d, src, tgt, es[..i + 1], convert)
         == var (d1, c1) := SyncEntriesSpec(d, src, tgt, es[..i], convert);
            if c1.None? then (d1, None)
            else
              var (d2, c2) := SyncEntrySpec(d1, src, tgt, es[i], convert);
              (d2, if c2.None? then None else Some(c1.value + c2.value))
  {
    assert es[..i + 1][..i] == es[..i];
  }

  /** Once a read has thrown, the later entries of the level change nothing. */
  lemma {:induction false} AbortedStaysAborted(d: Disk, src: Path, tgt: Path, es: seq<Entry>, k: nat, convert: (string, string) -> Option<string>)
    requires k <= |es|
    requires SyncEntriesSpec(d, src, tgt, es[..k], convert).1.None?
    ensures SyncEntriesSpec(d, src, tgt, es, convert) == SyncEntriesSpec(d, src, tgt, es[..k], convert)
    decreases |es| - k
  {
    if k < |es| {
      assert es[..k + 1][..k] == es[..k];
      AbortedStaysAborted(d, src, tgt, es, k + 1, convert);
    } else {
      assert es[..k] == es;
    }
  }
}

/** What syncGeminiCommands achieves when every command can be read. */
module GeminiProofs {
  import opened Common
  import opened Fs
  import opened Mirror
  import opened MirrorProofs
  import opened GeminiCommands

  lemma AcceptsMd(n: string)
    ensures Accepts(n, MdOnly) <==> EndsWith(n, MdSuffix)
  {
    if EndsWith(n, MdSuffix) {
      assert MdSuffix in MdOnly.value;
    }
  }

  /** The manifest's path for the command at relative path `r`. */
  function TomlPath(r: Path): Path
    requires r != [] && EndsWith(r[|r| - 1], MdSuffix)
  {
    r[..|r| - 1] + [TomlName(r[|r| - 1])]
  }

  /** The command's relative path for the manifest at relative path `q`. */
  function MdPath(q: Path): Path {
    if q != [] && EndsWith(q[|q| - 1], TomlSuffix) then
      q[..|q| - 1] + [q[|q| - 1][..|q[|q| - 1]| - 5] + MdSuffix]
    else q
  }

  lemma MdPathOfTomlPath(r: Path)
    requires r != [] && EndsWith(r[|r| - 1], MdSuffix)
    ensures MdPath(TomlPath(r)) == r
  {
    var n := r[|r| - 1];
    var q := TomlPath(r);
    assert q[|q| - 1] == TomlName(n);
    assert q[..|q| - 1] == r[..|r| - 1];
    assert TomlName(n)[..|TomlName(n)| - 5] == BaseName(n);
    assert BaseName(n) + MdSuffix == n by {
      assert n[|n| - 3..] == MdSuffix;
      assert n == n[..|n| - 3] + n[|n| - 3..];
    }
    assert r == r[..|r| - 1] + [n];
  }

  /** What the command at relative path `r` converts to, if it can be read
      and converts. */
  function ConvertAt(files: map<Path, string>, src: Path, r: Path, convert: (string, string) -> Option<string>): Option<string> {
    if r != [] && EndsWith(r[|r| - 1], MdSuffix) && src + r in files then
      convert(files[src + r], BaseName(r[|r| - 1]))
    else None
  }

  /** The manifest paths, under the target, of the commands `rels`. */
  function TomlTargets(tgt: Path, rels: set<Path>): set<Path> {
    set r | r in rels && r != [] && EndsWith(r[|r| - 1], MdSuffix) :: tgt + TomlPath(r)
  }

  /** The manifests the sync writes: for each command of `rels` that converts,
      its manifest path under the target, with the manifest. */
  function Converted(files: map<Path, string>, src: Path, tgt: Path, rels: set<Path>, convert: (string, string) -> Option<string>): map<Path, string> {
    map p | p in TomlTargets(tgt, rels) && ManifestAt(files, src, tgt, p, convert).Some?
      :: ManifestAt(files, src, tgt, p, convert).value
  }

  /** What the sync writes at the path `p` under the target, if anything. */
  function ManifestAt(files: map<Path, string>, src: Path, tgt: Path, p: Path, convert: (string, string) -> Option<string>): Option<string> {
    if |tgt| <= |p| then ConvertAt(files, src, MdPath(p[|tgt|..]), convert) else None
  }

  /** Every command of the tree can be read. */
  predicate AllReadable(files: map<Path, string>, src: Path, es: seq<Entry>) {
    forall r :: r in Accepted(es, MdOnly) ==> src + r in files
  }

  lemma TomlPathUnder(n: string, q: Path)
    requires q != [] && EndsWith(q[|q| - 1], MdSuffix)
    ensures ([n] + q)[|q|] == q[|q| - 1]
    ensures TomlPath([n] + q) == [n] + TomlPath(q)
  {
    assert ([n] + q)[..|q|] == [n] + q[..|q| - 1];
  }

  lemma ConvertAtUnder(files: map<Path, string>, src: Path, n: string, q: Path, convert: (string, string) -> Option<string>)
    requires q != []
    ensures ConvertAt(files, src, [n] + q, convert) == ConvertAt(files, src + [n], q, convert)
  {
    assert ([n] + q)[|q|] == q[|q| - 1];
    assert src + ([n] + q) == (src + [n]) + q;
  }

  /** At the manifest path of a command the sync writes what the command
      converts to. */
  lemma ManifestAtToml(files: map<Path, string>, src: Path, tgt: Path, q: Path, convert: (string, string) -> Option<string>)
    requires q != [] && EndsWith(q[|q| - 1], MdSuffix)
    ensures ManifestAt(files, src, tgt, tgt + TomlPath(q), convert) == ConvertAt(files, src, q, convert)
  {
    assert (tgt + TomlPath(q))[|tgt|..] == TomlPath(q);
    MdPathOfTomlPath(q);
  }

  lemma ConvertedUnion(files: map<Path, string>, src: Path, tgt: Path, a: set<Path>, b: set<Path>, convert: (string, string) -> Option<string>)
    ensures Converted(files, src, tgt, a + b, convert) == Converted(files, src, tgt, a, convert) + Converted(files, src, tgt, b, convert)
  {
    ConvertedKeysUnion(files, src, tgt, a, b, convert);
    ConvertedValues(files, src, tgt, a + b, convert);
    ConvertedValues(files, src, tgt, a, convert);
    ConvertedValues(files, src, tgt, b, convert);
    MapUnion(Converted(files, src, tgt, a + b, convert), Converted(files, src, tgt, a, convert), Converted(files, src, tgt, b, convert));
  }

  /** A map whose keys are those of `ma` and `mb` and which agrees with both is their union. */
  lemma MapUnion(m: map<Path, string>, ma: map<Path, string>, mb: map<Path, string>)
    requires m.Keys == ma.Keys + mb.Keys
    requires forall p :: p in ma ==> m[p] == ma[p]
    requires forall p :: p in mb ==> m[p] == mb[p]
    ensures m == ma + mb
  {
  }

  lemma ConvertedKeysUnion(files: map<Path, string>, src: Path, tgt: Path, a: set<Path>, b: set<Path>, convert: (string, string) -> Option<string>)
    ensures Converted(files, src, tgt, a + b, convert).Keys == Converted(files, src, tgt, a, convert).Keys + Converted(files, src, tgt, b, convert).Keys
  {
    TomlTargetsUnion(tgt, a, b);
  }

  lemma TomlTargetsUnion(tgt: Path, a: set<Path>, b: set<Path>)
    ensures TomlTargets(tgt, a + b) == TomlTargets(tgt, a) + TomlTargets(tgt, b)
  {
  }

  /** Every manifest in `Converted` is the one `ManifestAt` gives for its path. */
  lemma ConvertedValues(files: map<Path, string>, src: Path, tgt: Path, rels: set<Path>, convert: (string, string) -> Option<string>)
    ensures forall p :: p in Converted(files, src, tgt, rels, convert) ==> Converted(files, src, tgt, rels, convert)[p] == ManifestAt(files, src, tgt, p, convert).value
  {
  }

  /** The manifest written for the command `[n] + q` of the tree is the one
      written for `q` in the subdirectory `n`. */
  lemma ConvertedUnderAt(files: map<Path, string>, src: Path, tgt: Path, n: string, q: Path, convert: (string, string) -> Option<string>)
    requires q != [] && EndsWith(q[|q| - 1], MdSuffix)
    ensures [n] + q != [] && EndsWith(([n] + q)[|q|], MdSuffix)
    ensures tgt + TomlPath([n] + q) == (tgt + [n]) + TomlPath(q)
    ensures ManifestAt(files, src, tgt, tgt + TomlPath([n] + q), convert)
         == ManifestAt(files, src + [n], tgt + [n], (tgt + [n]) + TomlPath(q), convert)
  {
    TomlPathUnder(n, q);
    assert tgt + ([n] + TomlPath(q)) == (tgt + [n]) + TomlPath(q);
    ManifestAtToml(files, src, tgt, [n] + q, convert);
    ManifestAtToml(files, src + [n], tgt + [n], q, convert);
    ConvertAtUnder(files, src, n, q, convert);
  }

  lemma ConvertedUnder(files: map<Path, string>, src: Path, tgt: Path, n: string, rels: set<Path>, convert: (string, string) -> Option<string>)
    requires [] !in rels
    ensures Converted(files, src, tgt, Under(n, rels), convert) == Converted(files, src + [n], tgt + [n], rels, convert)
  {
    ConvertedUnderForward(files, src, tgt, n, rels, convert);
    ConvertedUnderBackward(files, src, tgt, n, rels, convert);
    MapEqual(Converted(files, src, tgt, Under(n, rels), convert), Converted(files, src + [n], tgt + [n], rels, convert));
  }

  lemma ConvertedUnderForward(files: map<Path, string>, src: Path, tgt: Path, n: string, rels: set<Path>, convert: (string, string) -> Option<string>)
    requires [] !in rels
    ensures forall p :: p in Converted(files, src, tgt, Under(n, rels), convert) ==>
      p in Converted(files, src + [n], tgt + [n], rels, convert) &&
      Converted(files, src, tgt, Under(n, rels), convert)[p] == Converted(files, src + [n], tgt + [n], rels, convert)[p]
  {
    var m, m' := Converted(files, src, tgt, Under(n, rels), convert), Converted(files, src + [n], tgt + [n], rels, convert);
    forall p | p in m
      ensures p in m' && m[p] == m'[p]
    {
      var r0 :| r0 in Under(n, rels) && r0 != [] && EndsWith(r0[|r0| - 1], MdSuffix) && p == tgt + TomlPath(r0);
      var q :| q in rels && r0 == [n] + q;
      assert q != [] && r0[|r0| - 1] == q[|q| - 1];
      ConvertedUnderAt(files, src, tgt, n, q, convert);
    }
  }

  lemma ConvertedUnderBackward(files: map<Path, string>, src: Path, tgt: Path, n: string, rels: set<Path>, convert: (string, string) -> Option<string>)
    ensures forall p :: p in Converted(files, src + [n], tgt + [n], rels, convert) ==> p in Converted(files, src, tgt, Under(n, rels), convert)
  {
    var m, m' := Converted(files, src, tgt, Under(n, rels), convert), Converted(files, src + [n], tgt + [n], rels, convert);
    forall p | p in m'
      ensures p in m
    {
      var q :| q in rels && q != [] && EndsWith(q[|q| - 1], MdSuffix) && p == (tgt + [n]) + TomlPath(q);
      ConvertedUnderAt(files, src, tgt, n, q, convert);
      assert [n] + q in Under(n, rels);
    }
  }

  /** Two maps that agree on the keys of the first and have no others are equal. */
  lemma MapEqual(m: map<Path, string>, m': map<Path, string>)
    requires forall p :: p in m ==> p in m' && m[p] == m'[p]
    requires forall p :: p in m' ==> p in m
    ensures m == m'
  {
  }

  /** The sync only reads commands: writes elsewhere do not change what it writes. */
  lemma ConvertedReadsSources(files: map<Path, string>, extra: map<Path, string>, src: Path, tgt: Path, rels: set<Path>, convert: (string, string) -> Option<string>)
    requires forall r :: r in rels ==> src + r !in extra
    ensures Converted(files + extra, src, tgt, rels, convert) == Converted(files, src, tgt, rels, convert)
  {
    forall p | p in TomlTargets(tgt, rels)
      ensures ManifestAt(files + extra, src, tgt, p, convert) == ManifestAt(files, src, tgt, p, convert)
    {
      var q :| q in rels && q != [] && EndsWith(q[|q| - 1], MdSuffix) && p == tgt + TomlPath(q);
      ManifestAtToml(files, src, tgt, q, convert);
      ManifestAtToml(files + extra, src, tgt, q, convert);
    }
  }

  /** Nothing the sync writes is one of its commands. */
  lemma ConvertedApart(files: map<Path, string>, src: Path, tgt: Path, rels: set<Path>, src': Path, rels': set<Path>, convert: (string, string) -> Option<string>)
    requires Apart(src', tgt) && (exists q :: src == src' + q)
    ensures forall r :: r in rels' ==> src + r !in Converted(files, src', tgt, rels, convert)
  {
    var q :| src == src' + q;
    forall r, r' | r in rels' && r' in rels && r' != [] && EndsWith(r'[|r'| - 1], MdSuffix)
      ensures src + r != tgt + TomlPath(r')
    {
      assert src + r == src' + (q + r);
      ApartPaths(src', tgt, q + r, TomlPath(r'));
    }
  }

  lemma TomlTargetsOfFile(tgt: Path, n: string)
    requires EndsWith(n, MdSuffix)
    ensures [n] != [] && EndsWith([n][0], MdSuffix)
    ensures TomlTargets(tgt, {[n]}) == {tgt + [TomlName(n)]}
    ensures tgt + TomlPath([n]) == tgt + [TomlName(n)]
  {
    assert [n][0] == n;
    assert TomlPath([n]) == [TomlName(n)];
  }

  lemma ConvertedFile(files: map<Path, string>, src: Path, tgt: Path, n: string, convert: (string, string) -> Option<string>)
    requires EndsWith(n, MdSuffix) && src + [n] in files
    ensures var c := convert(files[src + [n]], BaseName(n));
      Converted(files, src, tgt, {[n]}, convert) == if c.Some? then map[tgt + [TomlName(n)] := c.value] else map[]
  {
    var c := convert(files[src + [n]], BaseName(n));
    var p := tgt + [TomlName(n)];
    TomlTargetsOfFile(tgt, n);
    ManifestAtToml(files, src, tgt, [n], convert);
    assert [n][0] == n;
    assert ManifestAt(files, src, tgt, p, convert) == c;
    ConvertedValues(files, src, tgt, {[n]}, convert);
    MapOfOne(Converted(files, src, tgt, {[n]}, convert), p, c);
  }

  /** A map with at most the key `p`, present exactly when `v` holds a value,
      which it maps to that value. */
  lemma MapOfOne(m: map<Path, string>, p: Path, v: Option<string>)
    requires m.Keys == if v.Some? then {p} else {}
    requires forall q :: q in m ==> v.Some? && m[q] == v.value
    ensures m == if v.Some? then map[p := v.value] else map[]
  {
  }

  /** The gemini law: when every command can be read, the sync leaves every
      file as it was except the manifest paths of the commands that convert,
      which get the manifests of the commands as they were before the sync;
      the directories it creates are those copyDirectory would create. It
      needs the source and the target apart, as in syncTool. */
  lemma {:induction false} SyncTreeLaw(d: Disk, src: Path, tgt: Path, es: seq<Entry>, convert: (string, string) -> Option<string>)
    requires Apart(src, tgt)
    requires AllReadable(d.files, src, es)
    ensures SyncTreeSpec(d, src, tgt, es, convert).0
         == Disk(d.files + Converted(d.files, src, tgt, Accepted(es, MdOnly), convert), d.dirs + MadeTree(tgt, es))
    decreases es, 1
  {
    SyncEntriesLaw(EnsureDirSpec(d, tgt), src, tgt, es, convert);
  }

  lemma {:induction false} SyncEntriesLaw(d: Disk, src: Path, tgt: Path, es: seq<Entry>, convert: (string, string) -> Option<string>)
    requires Apart(src, tgt)
    requires AllReadable(d.files, src, es)
    ensures SyncEntriesSpec(d, src, tgt, es, convert).1.Some?
    ensures SyncEntriesSpec(d, src, tgt, es, convert).0
         == Disk(d.files + Converted(d.files, src, tgt, Accepted(es, MdOnly), convert), d.dirs + MadeEntries(tgt, es))
    decreases es, 0
  {
    if es == [] {
      assert Converted(d.files, src, tgt, {}, convert) == map[];
    } else {
      var init, e := es[..|es| - 1], es[|es| - 1];
      assert Accepted(es, MdOnly) == Accepted(init, MdOnly) + EntryAccepted(e, MdOnly);
      SyncEntriesLaw(d, src, tgt, init, convert);
      SyncEntryLaw(d, src, tgt, init, e, convert);
      ConvertedUnion(d.files, src, tgt, Accepted(init, MdOnly), EntryAccepted(e, MdOnly), convert);
      var c1 := Converted(d.files, src, tgt, Accepted(init, MdOnly), convert);
      var c2 := Converted(d.files, src, tgt, EntryAccepted(e, MdOnly), convert);
      MapUnionAssoc(d.files, c1, c2);
      assert SyncEntriesSpec(d, src, tgt, es, convert).0
          == SyncEntrySpec(SyncEntriesSpec(d, src, tgt, init, convert).0, src, tgt, e, convert).0;
      assert MadeEntries(tgt, es) == MadeEntries(tgt, init) + (if e.Dir? then MadeTree(tgt + [e.name], e.children) else {});
    }
  }

  /** One more entry after `init`, synced onto the disk the sync of `init` left. */
  lemma {:induction false} SyncEntryLaw(d: Disk, src: Path, tgt: Path, init: seq<Entry>, e: Entry, convert: (string, string) -> Option<string>)
    requires Apart(src, tgt)
    requires forall r :: r in EntryAccepted(e, MdOnly) ==> src + r in d.files
    requires SyncEntriesSpec(d, src, tgt, init, convert).0
          == Disk(d.files + Converted(d.files, src, tgt, Accepted(init, MdOnly), convert), d.dirs + MadeEntries(tgt, init))
    ensures SyncEntrySpec(SyncEntriesSpec(d, src, tgt, init, convert).0, src, tgt, e, convert).1.Some?
    ensures SyncEntrySpec(SyncEntriesSpec(d, src, tgt, init, convert).0, src, tgt, e, convert).0
         == Disk(d.files + Converted(d.files, src, tgt, Accepted(init, MdOnly), convert) + Converted(d.files, src, tgt, EntryAccepted(e, MdOnly), convert),
                 d.dirs + MadeEntries(tgt, init) + (if e.Dir? then MadeTree(tgt + [e.name], e.children) else {}))
    decreases e
  {
    var d1 := SyncEntriesSpec(d, src, tgt, init, convert).0;
    var c1 := Converted(d.files, src, tgt, Accepted(init, MdOnly), convert);
    match e
    case Dir(n, ch) =>
      SyncDirLaw(d, d1, c1, src, tgt, init, n, ch, convert);
    case File(n) =>
      assert src == src + [];
      ConvertedApart(d.files, src, tgt, Accepted(init, MdOnly), src, {[n]}, convert);
      SyncFileLaw(d, d1, c1, src, tgt, n, convert);
    case Other(_) =>
      SyncOtherLaw(d, d1, c1, src, tgt, e, convert);
  }

  lemma SyncOtherLaw(d: Disk, d1: Disk, c1: map<Path, string>, src: Path, tgt: Path, e: Entry, convert: (string, string) -> Option<string>)
    requires e.Other?
    requires d1.files == d.files + c1
    ensures SyncEntrySpec(d1, src, tgt, e, convert) == (d1, Some(0))
    ensures d1 == Disk(d.files + c1 + Converted(d.files, src, tgt, EntryAccepted(e, MdOnly), convert), d1.dirs)
  {
    assert EntryAccepted(e, MdOnly) == {};
    assert Converted(d.files, src, tgt, {}, convert) == map[];
    assert d.files + c1 + map[] == d.files + c1;
  }

  lemma {:induction false} SyncDirLaw(d: Disk, d1: Disk, c1: map<Path, string>, src: Path, tgt: Path, init: seq<Entry>,
                                      n: string, ch: seq<Entry>, convert: (string, string) -> Option<string>)
    requires Apart(src, tgt)
    requires forall r :: r in EntryAccepted(Dir(n, ch), MdOnly) ==> src + r in d.files
    requires c1 == Converted(d.files, src, tgt, Accepted(init, MdOnly), convert)
    requires d1 == Disk(d.files + c1, d.dirs + MadeEntries(tgt, init))
    ensures SyncEntrySpec(d1, src, tgt, Dir(n, ch), convert).1.Some?
    ensures SyncEntrySpec(d1, src, tgt, Dir(n, ch), convert).0
         == Disk(d.files + c1 + Converted(d.files, src, tgt, EntryAccepted(Dir(n, ch), MdOnly), convert),
                 d.dirs + MadeEntries(tgt, init) + MadeTree(tgt + [n], ch))
    decreases ch, 2
  {
    var rels := Accepted(ch, MdOnly);
    assert EntryAccepted(Dir(n, ch), MdOnly) == Under(n, rels);
    ApartInside(src, tgt, n);
    UnderReadable(d.files, src, n, rels);
    SyncTreeLaw(d1, src + [n], tgt + [n], ch, convert);
    AcceptedHeads(ch, MdOnly);
    ConvertedSubdirectory(d.files, c1, src, tgt, init, n, rels, convert);
  }

  /** The commands of a subdirectory can be read when those of the tree can. */
  lemma UnderReadable(files: map<Path, string>, src: Path, n: string, rels: set<Path>)
    requires forall r :: r in Under(n, rels) ==> src + r in files
    ensures forall r :: r in rels ==> (src + [n]) + r in files
  {
    forall r | r in rels
      ensures (src + [n]) + r in files
    {
      assert [n] + r in Under(n, rels);
      assert src + ([n] + r) == (src + [n]) + r;
    }
  }

  lemma SyncFileLaw(d: Disk, d1: Disk, c1: map<Path, string>, src: Path, tgt: Path, n: string, convert: (string, string) -> Option<string>)
    requires Apart(src, tgt)
    requires forall r :: r in EntryAccepted(File(n), MdOnly) ==> src + r in d.files
    requires src + [n] !in c1
    requires d1.files == d.files + c1
    ensures SyncEntrySpec(d1, src, tgt, File(n), convert).1.Some?
    ensures SyncEntrySpec(d1, src, tgt, File(n), convert).0
         == Disk(d.files + c1 + Converted(d.files, src, tgt, EntryAccepted(File(n), MdOnly), convert), d1.dirs)
  {
    AcceptsMd(n);
    if EndsWith(n, MdSuffix) {
      assert EntryAccepted(File(n), MdOnly) == {[n]};
      assert d1.files[src + [n]] == d.files[src + [n]];
      ConvertedFile(d.files, src, tgt, n, convert);
      FileEntry(d1, src, tgt, n, convert);
      WriteOnto(d.files + c1, d1, tgt + [TomlName(n)], convert(d.files[src + [n]], BaseName(n)));
    } else {
      assert Converted(d.files, src, tgt, {}, convert) == map[];
    }
  }

  /** A readable command is written out when it converts and skipped when it
      does not; either way the level goes on. */
  lemma FileEntry(d: Disk, src: Path, tgt: Path, n: string, convert: (string, string) -> Option<string>)
    requires EndsWith(n, MdSuffix) && src + [n] in d.files
    ensures var c := convert(d.files[src + [n]], BaseName(n));
      SyncEntrySpec(d, src, tgt, File(n), convert)
      == (if c.Some? then WriteSpec(d, tgt + [TomlName(n)], c.value) else d, Some(if c.Some? then 1 else 0))
  {
  }

  /** Writing what `c` holds, if anything, onto a disk whose files are `files`. */
  lemma WriteOnto(files: map<Path, string>, d1: Disk, t: Path, c: Option<string>)
    requires d1.files == files
    ensures (if c.Some? then WriteSpec(d1, t, c.value) else d1) == Disk(files + (if c.Some? then map[t := c.value] else map[]), d1.dirs)
  {
    if c.Some? {
      UpdateIsUnion(files, t, c.value);
    } else {
      assert files + map[] == files;
    }
  }

  /** `p` lies inside the directory `dir`. */
  predicate Inside(dir: Path, p: Path) {
    |dir| <= |p| && p[..|dir|] == dir
  }

  /** The sync writes only inside its target. */
  lemma {:induction false} SyncTreeFrame(d: Disk, src: Path, tgt: Path, es: seq<Entry>, convert: (string, string) -> Option<string>, p: Path)
    requires !Inside(tgt, p)
    ensures p in SyncTreeSpec(d, src, tgt, es, convert).0.files <==> p in d.files
    ensures p in d.files ==> SyncTreeSpec(d, src, tgt, es, convert).0.files[p] == d.files[p]
    decreases es, 1
  {
    SyncEntriesFrame(EnsureDirSpec(d, tgt), src, tgt, es, convert, p);
  }

  lemma {:induction false} SyncEntriesFrame(d: Disk, src: Path, tgt: Path, es: seq<Entry>, convert: (string, string) -> Option<string>, p: Path)
    requires !Inside(tgt, p)
    ensures p in SyncEntriesSpec(d, src, tgt, es, convert).0.files <==> p in d.files
    ensures p in d.files ==> SyncEntriesSpec(d, src, tgt, es, convert).0.files[p] == d.files[p]
    decreases es, 0
  {
    if es != [] {
      var init, e := es[..|es| - 1], es[|es| - 1];
      SyncEntriesFrame(d, src, tgt, init, convert, p);
      var d1 := SyncEntriesSpec(d, src, tgt, init, convert).0;
      match e
      case Dir(n, ch) =>
        SyncTreeFrame(d1, src + [n], tgt + [n], ch, convert, p);
      case File(n) =>
        if EndsWith(n, MdSuffix) {
          assert p != tgt + [TomlName(n)] by {
            assert (tgt + [TomlName(n)])[..|tgt|] == tgt;
          }
        }
      case Other(_) =>
    }
  }

  /** A command that cannot be read makes its whole directory level count 0:
      the read throws out of the loop into the level's catch. */
  lemma UnreadableCommandCountsZero(d: Disk, src: Path, tgt: Path, es: seq<Entry>, i: nat, convert: (string, string) -> Option<string>)
    requires Apart(src, tgt)
    requires i < |es| && es[i].File? && EndsWith(es[i].name, MdSuffix) && src + [es[i].name] !in d.files
    ensures SyncTreeSpec(d, src, tgt, es, convert).1 == 0
  {
    var d0 := EnsureDirSpec(d, tgt);
    var n := es[i].name;
    assert !Inside(tgt, src + [n]) by {
      var k :| 0 <= k < |src| && k < |tgt| && src[k] != tgt[k];
      assert (src + [n])[k] == src[k];
    }
    SyncEntriesFrame(d0, src, tgt, es[..i], convert, src + [n]);
    SyncEntriesNext(d0, src, tgt, es, i, convert);
    AbortedStaysAborted(d0, src, tgt, es, i + 1, convert);
    assert es[..|es|] == es;
  }

  // ---------------------------------------------------------------------------
  // The count
  // ---------------------------------------------------------------------------

  /** With unique names in every directory and every command readable, the
      count syncGeminiCommands returns is the number of manifests it writes. */
  lemma {:induction false} SyncTreeCount(d: Disk, src: Path, tgt: Path, es: seq<Entry>, convert: (string, string) -> Option<string>)
    requires Apart(src, tgt)
    requires WellFormed(es)
    requires AllReadable(d.files, src, es)
    ensures SyncTreeSpec(d, src, tgt, es, convert).1 == |Converted(d.files, src, tgt, Accepted(es, MdOnly), convert)|
    decreases es, 1
  {
    SyncEntriesCount(EnsureDirSpec(d, tgt), src, tgt, es, convert);
  }

  lemma {:induction false} SyncEntriesCount(d: Disk, src: Path, tgt: Path, es: seq<Entry>, convert: (string, string) -> Option<string>)
    requires Apart(src, tgt)
    requires WellFormed(es)
    requires AllReadable(d.files, src, es)
    ensures SyncEntriesSpec(d, src, tgt, es, convert).1 == Some(|Converted(d.files, src, tgt, Accepted(es, MdOnly), convert)|)
    decreases es, 0
  {
    if es == [] {
      assert Converted(d.files, src, tgt, {}, convert) == map[];
    } else {
      var init, e := es[..|es| - 1], es[|es| - 1];
      LastSplit(d.files, src, es);
      SyncEntriesCount(d, src, tgt, init, convert);
      SyncEntriesLaw(d, src, tgt, init, convert);
      var c1 := Converted(d.files, src, tgt, Accepted(init, MdOnly), convert);
      var d1 := SyncEntriesSpec(d, src, tgt, init, convert).0;
      SyncEntryCount(d, d1, c1, src, tgt, init, e, convert);
      SyncEntriesStep(d, src, tgt, es, convert);
    }
  }

  /** What the entries before the last and the last one inherit from a
      well-formed, readable level. */
  lemma LastSplit(files: map<Path, string>, src: Path, es: seq<Entry>)
    requires es != [] && WellFormed(es) && AllReadable(files, src, es)
    ensures WellFormed(es[..|es| - 1]) && AllReadable(files, src, es[..|es| - 1])
    ensures es[|es| - 1].Dir? ==> WellFormed(es[|es| - 1].children)
    ensures forall r :: r in EntryAccepted(es[|es| - 1], MdOnly) ==> src + r in files
  {
    var init := es[..|es| - 1];
    assert forall i :: 0 <= i < |init| ==> init[i] == es[i];
    assert Accepted(es, MdOnly) == Accepted(init, MdOnly) + EntryAccepted(es[|es| - 1], MdOnly);
  }

  /** The count of a level is the count of its entries before the last plus
      that of the last, when neither throws. */
  lemma SyncEntriesStep(d: Disk, src: Path, tgt: Path, es: seq<Entry>, convert: (string, string) -> Option<string>)
    requires es != [] && WellFormed(es)
    requires SyncEntriesSpec(d, src, tgt, es[..|es| - 1], convert).1 == Some(|Converted(d.files, src, tgt, Accepted(es[..|es| - 1], MdOnly), convert)|)
    requires SyncEntrySpec(SyncEntriesSpec(d, src, tgt, es[..|es| - 1], convert).0, src, tgt, es[|es| - 1], convert).1
          == Some(|Converted(d.files, src, tgt, EntryAccepted(es[|es| - 1], MdOnly), convert)|)
    ensures SyncEntriesSpec(d, src, tgt, es, convert).1 == Some(|Converted(d.files, src, tgt, Accepted(es, MdOnly), convert)|)
  {
    var x := |Converted(d.files, src, tgt, Accepted(es[..|es| - 1], MdOnly), convert)|;
    var y := |Converted(d.files, src, tgt, EntryAccepted(es[|es| - 1], MdOnly), convert)|;
    assert SyncEntriesSpec(d, src, tgt, es, convert).1 == Some(x + y) by {
      SyncEntriesAdd(d, src, tgt, es, convert, x, y);
    }
    assert |Converted(d.files, src, tgt, Accepted(es, MdOnly), convert)| == x + y by {
      ConvertedSize(d.files, src, tgt, es, convert);
    }
  }

  lemma SyncEntriesAdd(d: Disk, src: Path, tgt: Path, es: seq<Entry>, convert: (string, string) -> Option<string>, c1: nat, c2: nat)
    requires es != []
    requires SyncEntriesSpec(d, src, tgt, es[..|es| - 1], convert).1 == Some(c1)
    requires SyncEntrySpec(SyncEntriesSpec(d, src, tgt, es[..|es| - 1], convert).0, src, tgt, es[|es| - 1], convert).1 == Some(c2)
    ensures SyncEntriesSpec(d, src, tgt, es, convert).1 == Some(c1 + c2)
  {
  }

  /** The count of one more entry after `init`, on the disk the sync of
      `init` left. */
  lemma {:induction false} SyncEntryCount(d: Disk, d1: Disk, c1: map<Path, string>, src: Path, tgt: Path, init: seq<Entry>,
                                          e: Entry, convert: (string, string) -> Option<string>)
    requires Apart(src, tgt)
    requires e.Dir? ==> WellFormed(e.children)
    requires forall r :: r in EntryAccepted(e, MdOnly) ==> src + r in d.files
    requires c1 == Converted(d.files, src, tgt, Accepted(init, MdOnly), convert)
    requires d1.files == d.files + c1
    ensures SyncEntrySpec(d1, src, tgt, e, convert).1 == Some(|Converted(d.files, src, tgt, EntryAccepted(e, MdOnly), convert)|)
    decreases e
  {
    match e
    case Dir(n, ch) =>
      SyncDirCount(d, d1, c1, src, tgt, init, n, ch, convert);
    case File(n) =>
      SyncFileCount(d, d1, c1, src, tgt, init, n, convert);
    case Other(_) =>
      assert Converted(d.files, src, tgt, {}, convert) == map[];
  }

  lemma {:induction false} SyncDirCount(d: Disk, d1: Disk, c1: map<Path, string>, src: Path, tgt: Path, init: seq<Entry>,
                                        n: string, ch: seq<Entry>, convert: (string, string) -> Option<string>)
    requires Apart(src, tgt)
    requires WellFormed(ch)
    requires forall r :: r in EntryAccepted(Dir(n, ch), MdOnly) ==> src + r in d.files
    requires c1 == Converted(d.files, src, tgt, Accepted(init, MdOnly), convert)
    requires d1.files == d.files + c1
    ensures SyncEntrySpec(d1, src, tgt, Dir(n, ch), convert).1 == Some(|Converted(d.files, src, tgt, EntryAccepted(Dir(n, ch), MdOnly), convert)|)
    decreases ch, 2
  {
    var rels := Accepted(ch, MdOnly);
    assert EntryAccepted(Dir(n, ch), MdOnly) == Under(n, rels);
    ApartInside(src, tgt, n);
    UnderReadable(d.files, src, n, rels);
    SyncTreeCount(d1, src + [n], tgt + [n], ch, convert);
    AcceptedHeads(ch, MdOnly);
    ConvertedSubdirectory(d.files, c1, src, tgt, init, n, rels, convert);
  }

  /** What the sync of the subdirectory `n` writes, read after the entries
      before it, is what the tree writes for the commands under `n`. */
  lemma ConvertedSubdirectory(files: map<Path, string>, c1: map<Path, string>, src: Path, tgt: Path, init: seq<Entry>,
                              n: string, rels: set<Path>, convert: (string, string) -> Option<string>)
    requires Apart(src, tgt)
    requires [] !in rels
    requires c1 == Converted(files, src, tgt, Accepted(init, MdOnly), convert)
    ensures Converted(files + c1, src + [n], tgt + [n], rels, convert) == Converted(files, src, tgt, Under(n, rels), convert)
  {
    ConvertedApart(files, src + [n], tgt, Accepted(init, MdOnly), src, rels, convert);
    ConvertedReadsSources(files, c1, src + [n], tgt + [n], rels, convert);
    ConvertedUnder(files, src, tgt, n, rels, convert);
  }

  lemma SyncFileCount(d: Disk, d1: Disk, c1: map<Path, string>, src: Path, tgt: Path, init: seq<Entry>,
                      n: string, convert: (string, string) -> Option<string>)
    requires Apart(src, tgt)
    requires forall r :: r in EntryAccepted(File(n), MdOnly) ==> src + r in d.files
    requires c1 == Converted(d.files, src, tgt, Accepted(init, MdOnly), convert)
    requires d1.files == d.files + c1
    ensures SyncEntrySpec(d1, src, tgt, File(n), convert).1 == Some(|Converted(d.files, src, tgt, EntryAccepted(File(n), MdOnly), convert)|)
  {
    AcceptsMd(n);
    if EndsWith(n, MdSuffix) {
      assert EntryAccepted(File(n), MdOnly) == {[n]};
      assert src == src + [];
      ConvertedApart(d.files, src, tgt, Accepted(init, MdOnly), src, {[n]}, convert);
      assert d1.files[src + [n]] == d.files[src + [n]];
      ConvertedFile(d.files, src, tgt, n, convert);
      FileCount(d1, src, tgt, n, convert);
    } else {
      assert Converted(d.files, src, tgt, {}, convert) == map[];
    }
  }

  /** A readable command counts 1 when it converts and 0 when it does not. */
  lemma FileCount(d: Disk, src: Path, tgt: Path, n: string, convert: (string, string) -> Option<string>)
    requires EndsWith(n, MdSuffix) && src + [n] in d.files
    ensures SyncEntrySpec(d, src, tgt, File(n), convert).1
         == Some(|if convert(d.files[src + [n]], BaseName(n)).Some? then map[tgt + [TomlName(n)] := convert(d.files[src + [n]], BaseName(n)).value] else map[]|)
  {
  }

  /** With unique names, the commands of the last entry are not among those
      of the entries before it. */
  lemma AcceptedDisjoint(es: seq<Entry>)
    requires es != [] && WellFormed(es)
    ensures Accepted(es[..|es| - 1], MdOnly) !! EntryAccepted(es[|es| - 1], MdOnly)
  {
    var init, e := es[..|es| - 1], es[|es| - 1];
    AcceptedHeads(init, MdOnly);
    forall p | p in EntryAccepted(e, MdOnly)
      ensures p !in Accepted(init, MdOnly)
    {
      EntryAcceptedHead(e, MdOnly, p);
      forall i | 0 <= i < |init|
        ensures init[i].name != p[0]
      {
        assert es[i] == init[i];
      }
    }
  }

  /** The manifests of a level number those of its entries before the last
      plus those of the last. */
  lemma ConvertedSize(files: map<Path, string>, src: Path, tgt: Path, es: seq<Entry>, convert: (string, string) -> Option<string>)
    requires es != [] && WellFormed(es)
    ensures |Converted(files, src, tgt, Accepted(es, MdOnly), convert)|
         == |Converted(files, src, tgt, Accepted(es[..|es| - 1], MdOnly), convert)| + |Converted(files, src, tgt, EntryAccepted(es[|es| - 1], MdOnly), convert)|
  {
    var init, e := es[..|es| - 1], es[|es| - 1];
    AcceptedDisjoint(es);
    ConvertedDisjoint(files, src, tgt, Accepted(init, MdOnly), EntryAccepted(e, MdOnly), convert);
    ConvertedUnion(files, src, tgt, Accepted(init, MdOnly), EntryAccepted(e, MdOnly), convert);
    DisjointUnionSize(Converted(files, src, tgt, Accepted(init, MdOnly), convert), Converted(files, src, tgt, EntryAccepted(e, MdOnly), convert));
  }

  /** Distinct commands have distinct manifest paths. */
  lemma ConvertedDisjoint(files: map<Path, string>, src: Path, tgt: Path, a: set<Path>, b: set<Path>, convert: (string, string) -> Option<string>)
    requires a !! b
    ensures Converted(files, src, tgt, a, convert).Keys !! Converted(files, src, tgt, b, convert).Keys
  {
    forall p | p in TomlTargets(tgt, a) && p in TomlTargets(tgt, b)
      ensures false
    {
      var r :| r in a && r != [] && EndsWith(r[|r| - 1], MdSuffix) && p == tgt + TomlPath(r);
      var r' :| r' in b && r' != [] && EndsWith(r'[|r'| - 1], MdSuffix) && p == tgt + TomlPath(r');
      assert p[|tgt|..] == TomlPath(r) == TomlPath(r');
      MdPathOfTomlPath(r);
      MdPathOfTomlPath(r');
    }
  }

  lemma DisjointUnionSize(m1: map<Path, string>, m2: map<Path, string>)
    requires m1.Keys !! m2.Keys
    ensures |m1 + m2| == |m1| + |m2|
  {
    assert (m1 + m2).Keys == m1.Keys + m2.Keys;
    assert |(m1 + m2).Keys| == |m1.Keys| + |m2.Keys|;
  }
}
