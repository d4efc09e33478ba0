/** The file system the scripts read and write, as the two sets of names Node's
    `fs` module sees: regular files with their text, and directories. The
    scripts' own functions (copyDirectory, syncGeminiCommands, ...) are methods
    over one `FileSystem` object; each primitive below states its new state as a
    function of the old one, on the value type `Disk`. */
module Fs {
  import opened Common

  /** A snapshot of the file system. */
  datatype Disk = Disk(files: map<Path, string>, dirs: set<Path>)

  /** `fs.existsSync(p)` / a successful `fs.access(p)`: a file or a directory is there. */
  predicate Exists(d: Disk, p: Path) {
    p in d.files || p in d.dirs
  }

  /** `mkdir(p, { recursive: true })` with EEXIST ignored. */
  function EnsureDirSpec(d: Disk, p: Path): Disk {
    d.(dirs := d.dirs + Ancestors(p))
  }

  /** `writeFile(p, content)`: creates or overwrites `p`. */
  function WriteSpec(d: Disk, p: Path, content: string): Disk {
    d.(files := d.files[p := content])
  }

  /** copyFile (scripts/sync-ai-config.js:43-55): a missing source leaves the
      disk as it was. */
  function CopyFileSpec(d: Disk, src: Path, dest: Path): Disk {
    if src in d.files then WriteSpec(d, dest, d.files[src]) else d
  }

  /** Creating a directory never touches a file, and leaves `p` and its
      ancestors existing. */
  lemma EnsureDirKeepsFiles(d: Disk, p: Path)
    requires p != []
    ensures EnsureDirSpec(d, p).files == d.files
    ensures Exists(EnsureDirSpec(d, p), p)
    ensures d.dirs <= EnsureDirSpec(d, p).dirs
  {
  }

  class FileSystem {
    var files: map<Path, string>
    var dirs: set<Path>

    constructor (d: Disk)
      ensures State() == d
    {
      files := d.files;
      dirs := d.dirs;
    }

    function State(): Disk
      reads this
    {
      Disk(files, dirs)
    }

    predicate Exists(p: Path)
      reads this
    {
      p in files || p in dirs
    }

    /** ensureDir (scripts/sync-ai-config.js:35-41): the directory and its
        ancestors exist afterwards; an existing directory is not an error. */
    method EnsureDir(p: Path)
      modifies this
      ensures State() == EnsureDirSpec(old(State()), p)
    {
      dirs := dirs + Ancestors(p);
    }

    method WriteFile(p: Path, content: string)
      modifies this
      ensures State() == WriteSpec(old(State()), p, content)
    {
      files := files[p := content];
    }

    /** copyFile (scripts/sync-ai-config.js:43-55): reports false, and writes
        nothing, when the source is missing. */
    method CopyFile(src: Path, dest: Path) returns (copied: bool)
      modifies this
      ensures copied <==> src in old(files)
      ensures State() == CopyFileSpec(old(State()), src, dest)
    {
      copied := src in files;
      if copied {
        files := files[dest := files[src]];
      }
    }
  }
}
