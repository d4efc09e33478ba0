/** copyDirectory (scripts/sync-ai-config.js:57-86): mirrors a source tree
    into a target tree, copying the files whose names end with one of the
    given suffixes (every file when no suffixes are given), and counts them.

    What `readdir` lists is a parameter: a directory's entries in the order
    they are listed, or `None` when the directory is missing. The files'
    contents are read from the file system when they are copied, as the
    script does through copyFile. */
module Mirror {
  import opened Common
  import opened Fs

  /** A directory entry: a regular file, a directory with its own listing, or
      anything else (a symbolic link, a socket, ...), which is skipped. */
  datatype Entry = File(name: string) | Dir(name: string, children: seq<Entry>) | Other(name: string)

  /** `!extensions || extensions.some(ext => name.endsWith(ext))`: an empty
      list of suffixes is truthy and accepts nothing. */
  predicate Accepts(name: string, exts: Option<seq<string>>) {
    exts.None? || exists ext :: ext in exts.value && EndsWith(name, ext)
  }

  // ---------------------------------------------------------------------------
  // The disk after the copy, entry by entry
  // ---------------------------------------------------------------------------

  /** copyDirectory on a directory that exists: the target is created, then
      the entries are copied in order. */
  function CopyTreeSpec(d: Disk, src: Path, tgt: Path, es: seq<Entry>, exts: Option<seq<string>>): Disk
    decreases es, 1
  {
    CopyEntriesSpec(EnsureDirSpec(d, tgt), src, tgt, es, exts)
  }

  function CopyEntriesSpec(d: Disk, src: Path, tgt: Path, es: seq<Entry>, exts: Option<seq<string>>): Disk
    decreases es, 0
  {
    if es == [] then d
    else CopyEntrySpec(CopyEntriesSpec(d, src, tgt, es[..|es| - 1], exts), src, tgt, es[|es| - 1], exts)
  }

  function CopyEntrySpec(d: Disk, src: Path, tgt: Path, e: Entry, exts: Option<seq<string>>): Disk
    decreases e
  {
    match e
    case Dir(n, ch) => CopyTreeSpec(d, src + [n], tgt + [n], ch, exts)
    case File(n) => if Accepts(n, exts) then CopyFileSpec(d, src + [n], tgt + [n]) else d
    case Other(_) => d
  }

  /** copyDirectory: a missing source directory copies nothing, but the target
      is created all the same. */
  function CopyDirectorySpec(d: Disk, src: Path, tgt: Path, listing: Option<seq<Entry>>, exts: Option<seq<string>>): Disk {
    match listing
    case None => EnsureDirSpec(d, tgt)
    case Some(es) => CopyTreeSpec(d, src, tgt, es, exts)
  }

  // ---------------------------------------------------------------------------
  // The count
  // ---------------------------------------------------------------------------

  /** The count copyDirectory returns: the accepted files of the tree, those
      whose source turns out to be missing included. */
  function Count(es: seq<Entry>, exts: Option<seq<string>>): nat
    decreases es, 0
  {
    if es == [] then 0 else Count(es[..|es| - 1], exts) + EntryCount(es[|es| - 1], exts)
  }

  function EntryCount(e: Entry, exts: Option<seq<string>>): nat
    decreases e
  {
    match e
    case Dir(_, ch) => Count(ch, exts)
    case File(n) => if Accepts(n, exts) then 1 else 0
    case Other(_) => 0
  }

  function CountOf(listing: Option<seq<Entry>>, exts: Option<seq<string>>): nat {
    if listing.None? then 0 else Count(listing.value, exts)
  }

  // ---------------------------------------------------------------------------
  // The mirror, stated independently of the order of the copies
  // ---------------------------------------------------------------------------

  /** The relative paths of the accepted files of a tree. */
  function Accepted(es: seq<Entry>, exts: Option<seq<string>>): set<Path>
    decreases es, 0
  {
    if es == [] then {} else Accepted(es[..|es| - 1], exts) + EntryAccepted(es[|es| - 1], exts)
  }

  function EntryAccepted(e: Entry, exts: Option<seq<string>>): set<Path>
    decreases e
  {
    match e
    case Dir(n, ch) => Under(n, Accepted(ch, exts))
    case File(n) => if Accepts(n, exts) then {[n]} else {}
    case Other(_) => {}
  }

  /** The paths `rels` moved into the directory `n`. */
  function Under(n: string, rels: set<Path>): set<Path> {
    set r | r in rels :: [n] + r
  }

  /** The target paths of the relative paths `rels`. */
  function Targets(tgt: Path, rels: set<Path>): set<Path> {
    set r | r in rels :: tgt + r
  }

  /** The files the mirror writes: the target path of each relative path in
      `rels` whose source is a file, with the source's content. */
  function Mirrored(files: map<Path, string>, src: Path, tgt: Path, rels: set<Path>): map<Path, string> {
    map p | p in Targets(tgt, rels) && |tgt| <= |p| && src + p[|tgt|..] in files :: files[src + p[|tgt|..]]
  }

  /** The directories the mirror creates: the target and its ancestors, and
      the target of every directory of the tree. */
  function MadeTree(tgt: Path, es: seq<Entry>): set<Path>
    decreases es, 1
  {
    Ancestors(tgt) + MadeEntries(tgt, es)
  }

  function MadeEntries(tgt: Path, es: seq<Entry>): set<Path>
    decreases es, 0
  {
    if es == [] then {}
    else
      var e := es[|es| - 1];
      MadeEntries(tgt, es[..|es| - 1]) + (if e.Dir? then MadeTree(tgt + [e.name], e.children) else {})
  }

  /** Two paths neither of which lies inside the other: no file under one is
      a file under the other. */
  predicate Apart(a: Path, b: Path) {
    exists k :: 0 <= k < |a| && k < |b| && a[k] != b[k]
  }

  /** Every entry name of a listing is unique, in every directory. */
  predicate WellFormed(es: seq<Entry>)
    decreases es
  {
    && (forall i, j :: 0 <= i < j < |es| ==> es[i].name != es[j].name)
    && (forall i :: 0 <= i < |es| ==> es[i].Dir? ==> WellFormed(es[i].children))
  }

  // ---------------------------------------------------------------------------
  // The methods
  // ---------------------------------------------------------------------------

  /** copyDirectory (scripts/sync-ai-config.js:57-86). */
  method CopyDirectory(fs: FileSystem, src: Path, tgt: Path, listing: Option<seq<Entry>>, exts: Option<seq<string>>)
      returns (count: nat)
    modifies fs
    ensures fs.State() == CopyDirectorySpec(old(fs.State()), src, tgt, listing, exts)
    ensures count == CountOf(listing, exts)
  {
    if listing.None? {
      fs.EnsureDir(tgt);
      count := 0;
    } else {
      count := CopyTree(fs, src, tgt, listing.value, exts);
    }
  }

  /** copyDirectory on a source directory whose listing is `es`. */
  method CopyTree(fs: FileSystem, src: Path, tgt: Path, es: seq<Entry>, exts: Option<seq<string>>)
      returns (count: nat)
    modifies fs
    decreases es
    ensures fs.State() == CopyTreeSpec(old(fs.State()), src, tgt, es, exts)
    ensures count == Count(es, exts)
  {
    fs.EnsureDir(tgt);
    ghost var start := fs.State();
    count := 0;
    var i := 0;
    while i < |es|
      invariant 0 <= i <= |es|
      invariant fs.State() == CopyEntriesSpec(start, src, tgt, es[..i], exts)
      invariant count == Count(es[..i], exts)
    {
      assert es[..i + 1][..i] == es[..i];
      var e := es[i];
      if e.Dir? {
        var sub := CopyTree(fs, src + [e.name], tgt + [e.name], e.children, exts);
        count := count + sub;
      } else if e.File? && Accepts(e.name, exts) {
        var _ := fs.CopyFile(src + [e.name], tgt + [e.name]);
        count := count + 1;
      }
      i := i + 1;
    }
    assert es[..|es|] == es;
  }
}

/** What copyDirectory achieves, whatever the order of the listing. */
module MirrorProofs {
  import opened Common
  import opened Fs
  import opened Mirror

  lemma ApartPaths(a: Path, b: Path, r: Path, q: Path)
    requires Apart(a, b)
    ensures a + r != b + q
  {
    var k :| 0 <= k < |a| && k < |b| && a[k] != b[k];
    assert (a + r)[k] == a[k] && (b + q)[k] == b[k];
  }

  lemma ApartInside(a: Path, b: Path, n: string)
    requires Apart(a, b)
    ensures Apart(a + [n], b + [n])
  {
    var k :| 0 <= k < |a| && k < |b| && a[k] != b[k];
    assert (a + [n])[k] == a[k] && (b + [n])[k] == b[k];
  }

  lemma MirroredUnion(files: map<Path, string>, src: Path, tgt: Path, a: set<Path>, b: set<Path>)
    ensures Mirrored(files, src, tgt, a + b) == Mirrored(files, src, tgt, a) + Mirrored(files, src, tgt, b)
  {
    assert Targets(tgt, a + b) == Targets(tgt, a) + Targets(tgt, b);
  }

  lemma MirroredUnder(files: map<Path, string>, src: Path, tgt: Path, n: string, rels: set<Path>)
    ensures Mirrored(files, src, tgt, Under(n, rels)) == Mirrored(files, src + [n], tgt + [n], rels)
  {
    var m, m' := Mirrored(files, src, tgt, Under(n, rels)), Mirrored(files, src + [n], tgt + [n], rels);
    forall p | p in m
      ensures p in m' && m[p] == m'[p]
    {
      var r :| r in Under(n, rels) && p == tgt + r;
      var q :| q in rels && r == [n] + q;
      assert p == (tgt + [n]) + q;
      assert p[|tgt|..] == r && p[|tgt| + 1..] == q;
      assert src + r == (src + [n]) + q;
    }
    forall p | p in m'
      ensures p in m
    {
      var q :| q in rels && p == (tgt + [n]) + q;
      assert [n] + q in Under(n, rels);
      assert p == tgt + ([n] + q);
      assert p[|tgt|..] == [n] + q && p[|tgt| + 1..] == q;
      assert src + ([n] + q) == (src + [n]) + q;
    }
  }

  /** The mirror only reads sources: writes elsewhere do not change it. */
  lemma MirroredReadsSources(files: map<Path, string>, extra: map<Path, string>, src: Path, tgt: Path, rels: set<Path>)
    requires forall r :: r in rels ==> src + r !in extra
    ensures Mirrored(files + extra, src, tgt, rels) == Mirrored(files, src, tgt, rels)
  {
  }

  /** Nothing the mirror writes is a source of the mirror. */
  lemma MirroredApart(files: map<Path, string>, src: Path, tgt: Path, rels: set<Path>, src': Path, rels': set<Path>)
    requires Apart(src', tgt) && (exists q :: src == src' + q)
    ensures forall r :: r in rels' ==> src + r !in Mirrored(files, src', tgt, rels)
  {
    var q :| src == src' + q;
    forall r | r in rels'
      ensures src + r !in Mirrored(files, src', tgt, rels)
    {
      forall r' | r' in rels
        ensures src + r != tgt + r'
      {
        assert src + r == src' + (q + r);
        ApartPaths(src', tgt, q + r, r');
      }
    }
  }

  /** The mirror law: copying a tree leaves every file as it was except the
      targets of the accepted files whose sources exist, which get the
      sources' contents as they were before the copy; the directories created
      are the target, its ancestors and the target of every directory of the
      tree. It needs the source and the target apart, as they are in every
      use of copyDirectory. */
  lemma {:induction false} MirrorTree(d: Disk, src: Path, tgt: Path, es: seq<Entry>, exts: Option<seq<string>>)
    requires Apart(src, tgt)
    ensures CopyTreeSpec(d, src, tgt, es, exts)
         == Disk(d.files + Mirrored(d.files, src, tgt, Accepted(es, exts)), d.dirs + MadeTree(tgt, es))
    decreases es, 1
  {
    MirrorEntries(EnsureDirSpec(d, tgt), src, tgt, es, exts);
  }

  lemma {:induction false} MirrorEntries(d: Disk, src: Path, tgt: Path, es: seq<Entry>, exts: Option<seq<string>>)
    requires Apart(src, tgt)
    ensures CopyEntriesSpec(d, src, tgt, es, exts)
         == Disk(d.files + Mirrored(d.files, src, tgt, Accepted(es, exts)), d.dirs + MadeEntries(tgt, es))
    decreases es, 0
  {
    if es == [] {
      assert Mirrored(d.files, src, tgt, {}) == map[];
    } else {
      var init, e := es[..|es| - 1], es[|es| - 1];
      MirrorEntries(d, src, tgt, init, exts);
      MirrorEntry(d, src, tgt, init, e, exts);
      MirroredUnion(d.files, src, tgt, Accepted(init, exts), EntryAccepted(e, exts));
      var m1 := Mirrored(d.files, src, tgt, Accepted(init, exts));
      var m2 := Mirrored(d.files, src, tgt, EntryAccepted(e, exts));
      MapUnionAssoc(d.files, m1, m2);
      assert CopyEntriesSpec(d, src, tgt, es, exts) == CopyEntrySpec(CopyEntriesSpec(d, src, tgt, init, exts), src, tgt, e, exts);
      assert Accepted(es, exts) == Accepted(init, exts) + EntryAccepted(e, exts);
      assert MadeEntries(tgt, es) == MadeEntries(tgt, init) + (if e.Dir? then MadeTree(tgt + [e.name], e.children) else {});
    }
  }

  /** One more entry after `init`, copied onto the disk the copy of `init` left. */
  lemma {:induction false} MirrorEntry(d: Disk, src: Path, tgt: Path, init: seq<Entry>, e: Entry, exts: Option<seq<string>>)
    requires Apart(src, tgt)
    requires CopyEntriesSpec(d, src, tgt, init, exts)
          == Disk(d.files + Mirrored(d.files, src, tgt, Accepted(init, exts)), d.dirs + MadeEntries(tgt, init))
    ensures CopyEntrySpec(CopyEntriesSpec(d, src, tgt, init, exts), src, tgt, e, exts)
         == Disk(d.files + Mirrored(d.files, src, tgt, Accepted(init, exts)) + Mirrored(d.files, src, tgt, EntryAccepted(e, exts)),
                 d.dirs + MadeEntries(tgt, init) + (if e.Dir? then MadeTree(tgt + [e.name], e.children) else {}))
    decreases e
  {
    var d1 := CopyEntriesSpec(d, src, tgt, init, exts);
    var m1 := Mirrored(d.files, src, tgt, Accepted(init, exts));
    match e
    case Dir(n, ch) =>
      MirrorDir(d, d1, m1, src, tgt, init, n, ch, exts);
    case File(n) =>
      MirrorFile(d, d1, m1, src, tgt, init, n, exts);
    case Other(_) =>
      assert Mirrored(d.files, src, tgt, {}) == map[];
  }

  lemma {:induction false} MirrorDir(d: Disk, d1: Disk, m1: map<Path, string>, src: Path, tgt: Path, init: seq<Entry>,
                                     n: string, ch: seq<Entry>, exts: Option<seq<string>>)
    requires Apart(src, tgt)
    requires m1 == Mirrored(d.files, src, tgt, Accepted(init, exts))
    requires d1 == Disk(d.files + m1, d.dirs + MadeEntries(tgt, init))
    ensures CopyEntrySpec(d1, src, tgt, Dir(n, ch), exts)
         == Disk(d.files + m1 + Mirrored(d.files, src, tgt, EntryAccepted(Dir(n, ch), exts)),
                 d.dirs + MadeEntries(tgt, init) + MadeTree(tgt + [n], ch))
    decreases ch, 2
  {
    assert EntryAccepted(Dir(n, ch), exts) == Under(n, Accepted(ch, exts));
    ApartInside(src, tgt, n);
    MirrorTree(d1, src + [n], tgt + [n], ch, exts);
    MirroredApart(d.files, src + [n], tgt, Accepted(init, exts), src, Accepted(ch, exts));
    MirroredReadsSources(d.files, m1, src + [n], tgt + [n], Accepted(ch, exts));
    MirroredUnder(d.files, src, tgt, n, Accepted(ch, exts));
  }

  lemma MirrorFile(d: Disk, d1: Disk, m1: map<Path, string>, src: Path, tgt: Path, init: seq<Entry>, n: string, exts: Option<seq<string>>)
    requires Apart(src, tgt)
    requires m1 == Mirrored(d.files, src, tgt, Accepted(init, exts))
    requires d1.files == d.files + m1
    ensures CopyEntrySpec(d1, src, tgt, File(n), exts)
         == Disk(d.files + m1 + Mirrored(d.files, src, tgt, EntryAccepted(File(n), exts)), d1.dirs)
  {
    if Accepts(n, exts) {
      assert EntryAccepted(File(n), exts) == {[n]};
      assert src + [n] !in m1 by {
        assert src == src + [];
        MirroredApart(d.files, src, tgt, Accepted(init, exts), src, {[n]});
      }
      MirroredFile(d.files, src, tgt, n);
      CopyFileOnto(d.files, m1, d1, src + [n], tgt + [n]);
    } else {
      assert Mirrored(d.files, src, tgt, {}) == map[];
    }
  }

  /** copyFile onto a disk whose files are `files` with `m1` written over
      them, where `m1` does not hold the source. */
  lemma CopyFileOnto(files: map<Path, string>, m1: map<Path, string>, d1: Disk, s: Path, t: Path)
    requires d1.files == files + m1 && s !in m1
    ensures CopyFileSpec(d1, s, t) == Disk(files + m1 + (if s in files then map[t := files[s]] else map[]), d1.dirs)
  {
    if s in files {
      UpdateIsUnion(files + m1, t, files[s]);
    } else {
      assert files + m1 + map[] == files + m1;
    }
  }

  lemma UpdateIsUnion(m: map<Path, string>, p: Path, v: string)
    ensures m[p := v] == m + map[p := v]
  {
  }

  lemma MapUnionAssoc(a: map<Path, string>, b: map<Path, string>, c: map<Path, string>)
    ensures a + b + c == a + (b + c)
  {
  }

  lemma MirroredFile(files: map<Path, string>, src: Path, tgt: Path, n: string)
    ensures src + [n] in files ==> Mirrored(files, src, tgt, {[n]}) == map[tgt + [n] := files[src + [n]]]
    ensures src + [n] !in files ==> Mirrored(files, src, tgt, {[n]}) == map[]
  {
    assert Targets(tgt, {[n]}) == {tgt + [n]};
    assert (tgt + [n])[|tgt|..] == [n];
  }

  /** Mirroring a second time changes nothing more. */
  lemma MirrorIdempotent(d: Disk, src: Path, tgt: Path, es: seq<Entry>, exts: Option<seq<string>>)
    requires Apart(src, tgt)
    ensures CopyTreeSpec(CopyTreeSpec(d, src, tgt, es, exts), src, tgt, es, exts) == CopyTreeSpec(d, src, tgt, es, exts)
  {
    var d1 := CopyTreeSpec(d, src, tgt, es, exts);
    var m := Mirrored(d.files, src, tgt, Accepted(es, exts));
    MirrorTree(d, src, tgt, es, exts);
    MirrorTree(d1, src, tgt, es, exts);
    assert src == src + [];
    MirroredApart(d.files, src, tgt, Accepted(es, exts), src, Accepted(es, exts));
    MirroredReadsSources(d.files, m, src, tgt, Accepted(es, exts));
    assert d.files + m + m == d.files + m;
  }

  /** The copy leaves the source tree as it was. */
  lemma MirrorKeepsSources(d: Disk, src: Path, tgt: Path, es: seq<Entry>, exts: Option<seq<string>>, r: Path)
    requires Apart(src, tgt)
    ensures src + r in CopyTreeSpec(d, src, tgt, es, exts).files <==> src + r in d.files
    ensures src + r in d.files ==> CopyTreeSpec(d, src, tgt, es, exts).files[src + r] == d.files[src + r]
  {
    MirrorTree(d, src, tgt, es, exts);
    assert src == src + [];
    MirroredApart(d.files, src, tgt, Accepted(es, exts), src, {r});
  }

  /** With unique names in every directory, the count is the number of
      accepted files of the tree. */
  lemma {:induction false} CountAccepted(es: seq<Entry>, exts: Option<seq<string>>)
    requires WellFormed(es)
    ensures Count(es, exts) == |Accepted(es, exts)|
    decreases es
  {
    if es != [] {
      var init, e := es[..|es| - 1], es[|es| - 1];
      assert WellFormed(init) by {
        assert forall i :: 0 <= i < |init| ==> init[i] == es[i];
      }
      CountAccepted(init, exts);
      AcceptedHeads(init, exts);
      forall p | p in EntryAccepted(e, exts)
        ensures p !in Accepted(init, exts)
      {
        EntryAcceptedHead(e, exts, p);
      }
      assert Accepted(init, exts) * EntryAccepted(e, exts) == {};
      match e
      case Dir(n, ch) =>
        CountAccepted(ch, exts);
        UnderSize(n, Accepted(ch, exts));
      case File(n) =>
      case Other(_) =>
    }
  }

  /** Every accepted path starts with the name of an entry of the listing. */
  lemma {:induction false} AcceptedHeads(es: seq<Entry>, exts: Option<seq<string>>)
    ensures forall p :: p in Accepted(es, exts) ==> |p| > 0 && exists i :: 0 <= i < |es| && es[i].name == p[0]
    decreases es
  {
    if es != [] {
      var init, e := es[..|es| - 1], es[|es| - 1];
      AcceptedHeads(init, exts);
      forall p | p in Accepted(es, exts)
        ensures |p| > 0 && exists i :: 0 <= i < |es| && es[i].name == p[0]
      {
        if p in Accepted(init, exts) {
          var i :| 0 <= i < |init| && init[i].name == p[0];
          assert es[i] == init[i];
        } else {
          EntryAcceptedHead(e, exts, p);
          assert es[|es| - 1] == e;
        }
      }
    }
  }

  lemma EntryAcceptedHead(e: Entry, exts: Option<seq<string>>, p: Path)
    requires p in EntryAccepted(e, exts)
    ensures |p| > 0 && p[0] == e.name
  {
    if e.Dir? {
      var q :| q in Accepted(e.children, exts) && p == [e.name] + q;
    }
  }

  /** Moving paths into a directory keeps their number. */
  lemma {:induction false} UnderSize(n: string, rels: set<Path>)
    ensures |Under(n, rels)| == |rels|
    decreases |rels|
  {
    if rels != {} {
      var r :| r in rels;
      var rest := rels - {r};
      UnderSize(n, rest);
      assert Under(n, rels) == Under(n, rest) + {[n] + r};
      assert ([n] + r) !in Under(n, rest) by {
        forall q | q in rest
          ensures [n] + q != [n] + r
        {
          assert ([n] + q)[1..] == q && ([n] + r)[1..] == r;
        }
      }
    }
  }
}
