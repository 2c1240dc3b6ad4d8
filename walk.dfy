/**
 * The bundling engine as pure functions over a destination value: each function says,
 * for one function of the Rust bundler, what it returns and what the destination looks
 * like afterwards.  The imperative methods of module `Bundler` are proved to behave
 * exactly so; the properties of the engine are proved about these functions.
 *
 * `?` propagation is modelled as "return the first error with the destination as it
 * is at that point"; partial effects before an error stay.  The ghost `k` is the depth
 * bound of the acyclicity precondition and does not influence any result.
 */
module Walk {
  import opened Wrappers
  import opened Paths
  import opened Source
  import opened Timestamp
  import opened DestFs

  /** `copy_file_from_folder(file, folder)`. */
  function CopyFileFromFolder(fs: Fs, file: Path, folder: Path, d: Dest): (r: Step<()>)
    ensures fs.kind(file).Directory? ==> r == Step(Err(NotAFile), d)
    ensures fs.kind(file).Other? ==> r == Step(Ok(()), d)
    ensures file in fs.unreadable ==> r.dest == d
    ensures FileName(file).None? ==> r.dest == d
    ensures fs.kind(file).RegularFile? && FileName(file).Some? && file !in fs.unreadable
            && Writable(d, Child(folder, FileName(file).value))
        ==> r == Step(Ok(()), d.(files := d.files[Child(folder, FileName(file).value) := fs.kind(file).content]))
    // a copy the destination refuses is swallowed too
    ensures fs.kind(file).RegularFile? && FileName(file).Some? && !Writable(d, Child(folder, FileName(file).value))
        ==> r == Step(Ok(()), d)
    ensures r.res.Ok? <==> !fs.kind(file).Directory?
    ensures r.dest.dirs == d.dirs && Grows(d, r.dest) && (Valid(d) ==> Valid(r.dest))
  {
    match fs.kind(file)
    case Directory => Step(Err(NotAFile), d)
    case Other => Step(Ok(()), d)                   // "skipping non-regular file"
    case RegularFile(content) =>
      match FileName(file)
      case None => Step(Ok(()), d)                  // "path has no final component"
      case Some(name) =>
        // a failed fs::copy is reported and swallowed
        Step(Ok(()), Copy(d, Child(folder, name), content, file !in fs.unreadable))
  }

  /** `create_folder_in_backup_structure(folder, backup)`: strips the root, joins, creates. */
  function CreateFolderInBackupStructure(folder: Path, backup: Path, d: Dest): (r: Step<Path>)
    ensures r.res.Ok? <==> !Blocked(d, BuildFullBackupPath(folder, backup))
    ensures r.res.Ok? ==> r.res.value == BuildFullBackupPath(folder, backup)
    ensures r.res.Ok? ==> r.dest == Dest(d.dirs + Prefixes(BuildFullBackupPath(folder, backup)), d.files)
    ensures r.res.Err? ==> r == Step(Err(Io), d)
    ensures Valid(d) ==> Valid(r.dest)
  {
    var relative := StripRoot(folder);
    var full := Join(backup, relative);
    var c := CreateDirAll(d, full);
    if c.res.Err? then Step(Err(c.res.error), c.dest) else Step(Ok(full), c.dest)
  }

  /** `bundle_folder(folder, backup)`: mirrors `folder` at `map(folder, backup)`, copies its
      regular files there and recurses, through the canonical-path guard, into its
      sub-directories, always against the same `backup`. */
  function BundleFolder(fs: Fs, folder: Path, backup: Path, d: Dest, ghost k: nat): (r: Step<()>)
    requires WalkBounded(fs, folder, k)
    ensures Grows(d, r.dest) && (Valid(d) ==> Valid(r.dest))
    ensures !fs.kind(folder).Directory? ==> r == Step(Err(NotAFolder), d)
    ensures r.res.Ok? ==> BuildFullBackupPath(folder, backup) in r.dest.dirs
    // the depth-0 entry WalkDir yields is the folder itself: it must canonicalise, and
    // then the guard always skips it
    ensures fs.kind(folder).Directory? && fs.canon(folder).None? ==> r.res == Err(Io)
    ensures fs.kind(folder).Directory? && !Blocked(d, BuildFullBackupPath(folder, backup))
            && fs.canon(folder).Some? && fs.listing(folder) == Some([])
        ==> r == Step(Ok(()), Dest(d.dirs + Prefixes(BuildFullBackupPath(folder, backup)), d.files))
    decreases k, 2, 0
  {
    if !fs.kind(folder).Directory? then Step(Err(NotAFolder), d)
    else
      var c := CreateFolderInBackupStructure(folder, backup, d);
      if c.res.Err? then Step(Err(c.res.error), c.dest)
      // WalkDir yields the folder itself first: canonicalising it may fail; otherwise
      // the guard compares it with itself and skips it.
      else if fs.canon(folder).None? then Step(Err(Io), c.dest)
      else if fs.listing(folder).None? then Step(Err(Io), c.dest)
      else FolderLoop(fs, folder, c.res.value, backup, 0, c.dest, k)
  }

  /** The loop of `bundle_folder` over the folder's children, from the `i`-th one on. */
  function FolderLoop(fs: Fs, folder: Path, full: Path, backup: Path, i: nat, d: Dest, ghost k: nat): (r: Step<()>)
    requires i <= |Names(fs, folder)| && WalkBounded(fs, folder, k)
    requires full in d.dirs
    ensures Grows(d, r.dest) && (Valid(d) ==> Valid(r.dest))
    ensures r.res.Ok? ==> full in r.dest.dirs
    decreases k, 1, |Names(fs, folder)| - i
  {
    if i == |Names(fs, folder)| then Step(Ok(()), d)
    else
      var s := FolderChild(fs, folder, full, backup, Names(fs, folder)[i], d, k);
      if s.res.Err? then s
      else FolderLoop(fs, folder, full, backup, i + 1, s.dest, k)
  }

  /** One child of `bundle_folder`'s loop. */
  function FolderChild(fs: Fs, folder: Path, full: Path, backup: Path, name: string, d: Dest, ghost k: nat): (r: Step<()>)
    requires k > 0 && (Recurses(fs, folder, name) ==> WalkBounded(fs, Child(folder, name), k - 1))
    ensures Grows(d, r.dest) && (Valid(d) ==> Valid(r.dest))
    ensures (fs.kind(Child(folder, name)).Directory? && fs.canon(Child(folder, name)).Some?
             && fs.canon(Child(folder, name)) == fs.canon(folder)) ==> r == Step(Ok(()), d)
    decreases k, 0, 0
  {
    var c := Child(folder, name);
    if fs.kind(c).Directory? then
      if fs.canon(c).None? || fs.canon(folder).None? then Step(Err(Io), d)
      else if fs.canon(c) != fs.canon(folder) then BundleFolder(fs, c, backup, d, k - 1)
      else Step(Ok(()), d)
    else CopyFileFromFolder(fs, c, full, d)
  }

  /** `bundle_file(source, backup)`: maps the source (again) under `backup`, creates the
      parent of that path and copies the file into it. */
  function BundleFile(fs: Fs, source: Path, backup: Path, d: Dest): (r: Step<()>)
    ensures !fs.kind(source).RegularFile? ==> r == Step(Err(NotAFile), d)
    ensures Grows(d, r.dest) && (Valid(d) ==> Valid(r.dest))
  {
    if !fs.kind(source).RegularFile? then Step(Err(NotAFile), d)
    else
      var full := BuildFullBackupPath(source, backup);
      match Parent(full)
      case None => Step(Err(NoParent), d)
      case Some(parent) =>
        var c := CreateDirAll(d, parent);
        if c.res.Err? then c else CopyFileFromFolder(fs, source, parent, c.dest)
  }

  /** `bundle_element(source, dest, backup)`: a directory source has its regular files
      copied straight into `dest` and each sub-directory handed to `bundle_folder`
      against `backup`; anything else goes to `bundle_file`. */
  function BundleElement(fs: Fs, source: Path, dest: Path, backup: Path, d: Dest, ghost k: nat): (r: Step<()>)
    requires fs.kind(source).Directory? ==> ElementBounded(fs, source, k)
    ensures Grows(d, r.dest) && (Valid(d) ==> Valid(r.dest))
    ensures !fs.kind(source).Directory? ==> r == BundleFile(fs, source, dest, d)
  {
    if fs.kind(source).Directory? then
      if fs.listing(source).None? then Step(Err(Io), d)
      else ElementLoop(fs, source, dest, backup, 0, d, k)
    else BundleFile(fs, source, dest, d)
  }

  /** The loop of `bundle_element` over a source directory's children, from the `i`-th on. */
  function ElementLoop(fs: Fs, source: Path, dest: Path, backup: Path, i: nat, d: Dest, ghost k: nat): (r: Step<()>)
    requires i <= |Names(fs, source)| && ElementBounded(fs, source, k)
    ensures Grows(d, r.dest) && (Valid(d) ==> Valid(r.dest))
    decreases |Names(fs, source)| - i
  {
    if i == |Names(fs, source)| then Step(Ok(()), d)
    else
      var s := ElementChild(fs, source, dest, backup, Names(fs, source)[i], d, k);
      if s.res.Err? then s
      else ElementLoop(fs, source, dest, backup, i + 1, s.dest, k)
  }

  /** One child of `bundle_element`'s loop: a directory goes, unguarded, to `bundle_folder`
      against `backup`; anything else is copied straight into `dest`. */
  function ElementChild(fs: Fs, source: Path, dest: Path, backup: Path, name: string, d: Dest, ghost k: nat): (r: Step<()>)
    requires fs.kind(Child(source, name)).Directory? ==> WalkBounded(fs, Child(source, name), k)
    ensures Grows(d, r.dest) && (Valid(d) ==> Valid(r.dest))
    ensures fs.kind(Child(source, name)).Directory? ==> r == BundleFolder(fs, Child(source, name), backup, d, k)
    ensures !fs.kind(Child(source, name)).Directory? ==> r == CopyFileFromFolder(fs, Child(source, name), dest, d)
  {
    var c := Child(source, name);
    if fs.kind(c).Directory? then BundleFolder(fs, c, backup, d, k)
    else CopyFileFromFolder(fs, c, dest, d)
  }

  /** `bundle_paths(source, base)` at clock reading `now`: names the staging root, creates
      the source's mirror under it, only then rejects a relative source, and bundles. */
  function BundlePaths(fs: Fs, source: Path, base: Path, now: DateTime, d: Dest, ghost k: nat): (r: Step<Path>)
    requires ValidDateTime(now) && (source.absolute && fs.kind(source).Directory? ==> ElementBounded(fs, source, k))
    ensures Grows(d, r.dest) && (Valid(d) ==> Valid(r.dest))
    ensures r.res.Ok? ==> r.res.value == GenerateBundledName(base, now) && source.absolute
    ensures r.res.Ok? && |source.comps| > 0 ==> IsStrictPrefix(r.res.value, BuildFullBackupPath(source, r.res.value))
    // the relative-source check comes after create_dir_all: a relative source always fails,
    // but, unless creation was blocked, only after its mirror under the root was created
    ensures !source.absolute ==> r.res.Err?
    ensures var full := BuildFullBackupPath(source, GenerateBundledName(base, now));
      !source.absolute && !Blocked(d, full) ==> r.res.error == NotAbsolute && Prefixes(full) <= r.dest.dirs
    ensures Blocked(d, BuildFullBackupPath(source, GenerateBundledName(base, now))) ==> r == Step(Err(Io), d)
  {
    var root := GenerateBundledName(base, now);
    var full := BuildFullBackupPath(source, root);
    var c := CreateDirAll(d, full);
    if c.res.Err? then Step(Err(c.res.error), c.dest)
    else if !source.absolute then Step(Err(NotAbsolute), c.dest)
    else
      var e := BundleElement(fs, source, full, root, c.dest, k);
      if e.res.Err? then Step(Err(e.res.error), e.dest) else Step(Ok(root), e.dest)
  }
}
