/**
 * The destination side as a value: the directories that exist and the regular files
 * with their contents.  The two primitives the bundler calls on it are
 * `fs::create_dir_all` and `fs::copy`.
 */
module DestFs {
  import opened Wrappers
  import opened Paths
  import opened Source

  datatype Error =
    | NotAbsolute   // bundle_paths: the source path is relative
    | NotAFolder    // bundle_folder: the path is not a directory
    | NotAFile      // bundle_file / copy_file_from_folder: wrong kind of entry
    | NoParent      // bundle_file: the mirrored path has no parent
    | Io            // an error propagated from create_dir_all, read_dir or canonicalize

  type Outcome = Result<(), Error>

  datatype Dest = Dest(dirs: set<Path>, files: map<Path, Content>)

  /** The result of one bundling step: what it returned and the destination afterwards. */
  datatype Step<T> = Step(res: Result<T, Error>, dest: Dest)

  /** A destination that is a real tree: directories are closed under ancestors, every
      file sits in an existing directory, and no path is both a file and a directory. */
  ghost predicate Valid(d: Dest) {
    && (forall p, i :: p in d.dirs && 0 <= i <= |p.comps| ==> PrefixAt(p, i) in d.dirs)
    && (forall p :: p in d.files ==> |p.comps| > 0 && PrefixAt(p, |p.comps| - 1) in d.dirs)
    && (forall p :: p in d.files ==> p !in d.dirs)
  }

  /** Nothing that existed has disappeared. */
  ghost predicate Grows(d: Dest, d': Dest) {
    d.dirs <= d'.dirs && d.files.Keys <= d'.files.Keys
  }

  /** `create_dir_all(p)` fails when `p` or one of its ancestors is a regular file. */
  predicate Blocked(d: Dest, p: Path) {
    exists i :: 0 <= i <= |p.comps| && PrefixAt(p, i) in d.files
  }

  /** `fs::create_dir_all(p)`: afterwards `p` and all its ancestors are directories, or
      nothing changed and the call failed. */
  function CreateDirAll(d: Dest, p: Path): (r: Step<()>)
    ensures r.res.Ok? <==> !Blocked(d, p)
    ensures r.res.Ok? ==> r.dest == Dest(d.dirs + Prefixes(p), d.files)
    ensures r.res.Err? ==> r.res.error == Io && r.dest == d
    ensures Valid(d) ==> Valid(r.dest)
  {
    if Blocked(d, p) then Step(Err(Io), d)
    else
      var r := Step(Ok(()), Dest(d.dirs + Prefixes(p), d.files));
      assert forall q, i :: q in Prefixes(p) && 0 <= i <= |q.comps| ==> PrefixAt(q, i) == PrefixAt(p, i);
      assert forall q :: q in Prefixes(p) ==> q == PrefixAt(p, |q.comps|);
      r
  }

  /** Whether `fs::copy` can write `target`: its parent is a directory and `target`
      itself is not one. */
  predicate Writable(d: Dest, target: Path) {
    |target.comps| > 0 && PrefixAt(target, |target.comps| - 1) in d.dirs && target !in d.dirs
  }

  /** `fs::copy(file, target)`: writes (or overwrites) `target` with the file's content, or
      fails and changes nothing when the file cannot be read or `target` cannot be written. */
  function Copy(d: Dest, target: Path, content: Content, readable: bool): (d': Dest)
    ensures d'.dirs == d.dirs
    ensures readable && Writable(d, target) ==> d'.files == d.files[target := content]
    ensures !(readable && Writable(d, target)) ==> d' == d
    ensures Valid(d) ==> Valid(d')
  {
    if readable && Writable(d, target) then d.(files := d.files[target := content]) else d
  }
}
