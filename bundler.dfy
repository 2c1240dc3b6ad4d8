/**
 * The bundling engine as the Rust code runs it: methods that update the staging store
 * step by step, looping over directory listings and recursing into sub-directories.
 * Each method is proved to return what, and leave the store as, the function of the
 * same name in module `Walk` says.
 */
module Bundler {
  import opened Wrappers
  import opened Paths
  import opened Source
  import opened Timestamp
  import opened DestFs
  import opened Staging
  import Walk

  /** `copy_file_from_folder(file, folder)`. */
  method CopyFileFromFolder(fs: Fs, file: Path, folder: Path, store: StagingStore) returns (r: Outcome)
    requires store.Valid()
    modifies store
    ensures store.Valid()
    ensures Step(r, store.State()) == Walk.CopyFileFromFolder(fs, file, folder, old(store.State()))
  {
    if fs.kind(file).Directory? {
      return Err(NotAFile);
    }
    if !fs.kind(file).RegularFile? {
      return Ok(());   // skipping non-regular file
    }
    var name := FileName(file);
    if name.None? {
      return Ok(());   // path has no final component
    }
    var copied := store.Copy(Child(folder, name.value), fs.kind(file).content, file !in fs.unreadable);
    // a failed copy is only reported
    return Ok(());
  }

  /** `create_folder_in_backup_structure(folder, backup)`. */
  method CreateFolderInBackupStructure(folder: Path, backup: Path, store: StagingStore) returns (r: Result<Path, Error>)
    requires store.Valid()
    modifies store
    ensures store.Valid()
    ensures Step(r, store.State()) == Walk.CreateFolderInBackupStructure(folder, backup, old(store.State()))
  {
    var full := Join(backup, StripRoot(folder));
    var ok := store.CreateDirAll(full);
    if !ok {
      return Err(Io);
    }
    return Ok(full);
  }

  /** `bundle_folder(folder, backup)`. */
  method BundleFolder(fs: Fs, folder: Path, backup: Path, store: StagingStore, ghost k: nat) returns (r: Outcome)
    requires store.Valid() && WalkBounded(fs, folder, k)
    modifies store
    ensures store.Valid()
    ensures Step(r, store.State()) == Walk.BundleFolder(fs, folder, backup, old(store.State()), k)
    decreases k, 2
  {
    if !fs.kind(folder).Directory? {
      return Err(NotAFolder);
    }
    var full := CreateFolderInBackupStructure(folder, backup, store);
    if full.Err? {
      return Err(full.error);
    }
    // the depth-0 entry WalkDir yields for the folder itself
    if fs.canon(folder).None? {
      return Err(Io);
    }
    if fs.listing(folder).None? {
      return Err(Io);
    }
    r := FolderEntries(fs, folder, full.value, backup, store, k);
  }

  /** The WalkDir loop of `bundle_folder` over the folder's entries, each copied into or
      mirrored under the folder's mirror `full`; the first error ends it. */
  method FolderEntries(fs: Fs, folder: Path, full: Path, backup: Path, store: StagingStore, ghost k: nat)
    returns (r: Outcome)
    requires store.Valid() && WalkBounded(fs, folder, k) && fs.listing(folder).Some?
    requires full in store.State().dirs
    modifies store
    ensures store.Valid()
    ensures Step(r, store.State()) == Walk.FolderLoop(fs, folder, full, backup, 0, old(store.State()), k)
    decreases k, 1
  {
    var names := fs.listing(folder).value;
    ghost var target := Walk.FolderLoop(fs, folder, full, backup, 0, store.State(), k);
    var i := 0;
    while i < |names|
      invariant 0 <= i <= |names| && store.Valid()
      invariant full in store.State().dirs
      invariant Walk.FolderLoop(fs, folder, full, backup, i, store.State(), k) == target
      decreases |names| - i
    {
      var o := FolderChild(fs, folder, full, backup, names[i], store, k);
      if o.Err? {
        return o;
      }
      i := i + 1;
    }
    return Ok(());
  }

  /** One entry of `bundle_folder`'s WalkDir loop: a directory is entered through the
      canonical-path guard, anything else is copied into the folder's mirror `full`. */
  method FolderChild(fs: Fs, folder: Path, full: Path, backup: Path, name: string, store: StagingStore, ghost k: nat)
    returns (r: Outcome)
    requires store.Valid()
    requires k > 0 && (Recurses(fs, folder, name) ==> WalkBounded(fs, Child(folder, name), k - 1))
    modifies store
    ensures store.Valid()
    ensures Step(r, store.State()) == Walk.FolderChild(fs, folder, full, backup, name, old(store.State()), k)
    decreases k, 0
  {
    var child := Child(folder, name);
    if fs.kind(child).Directory? {
      if fs.canon(child).None? || fs.canon(folder).None? {
        return Err(Io);
      }
      if fs.canon(child) != fs.canon(folder) {
        r := BundleFolder(fs, child, backup, store, k - 1);
        return;
      }
      return Ok(());   // the entry resolves to the folder itself
    }
    r := CopyFileFromFolder(fs, child, full, store);
  }

  /** `bundle_file(source, backup)`. */
  method BundleFile(fs: Fs, source: Path, backup: Path, store: StagingStore) returns (r: Outcome)
    requires store.Valid()
    modifies store
    ensures store.Valid()
    ensures Step(r, store.State()) == Walk.BundleFile(fs, source, backup, old(store.State()))
  {
    if !fs.kind(source).RegularFile? {
      return Err(NotAFile);
    }
    var full := BuildFullBackupPath(source, backup);
    var parent := Parent(full);
    if parent.None? {
      return Err(NoParent);
    }
    var ok := store.CreateDirAll(parent.value);
    if !ok {
      return Err(Io);
    }
    r := CopyFileFromFolder(fs, source, parent.value, store);
  }

  /** `bundle_element(source, dest, backup)`. */
  method BundleElement(fs: Fs, source: Path, dest: Path, backup: Path, store: StagingStore, ghost k: nat)
    returns (r: Outcome)
    requires store.Valid() && (fs.kind(source).Directory? ==> ElementBounded(fs, source, k))
    modifies store
    ensures store.Valid()
    ensures Step(r, store.State()) == Walk.BundleElement(fs, source, dest, backup, old(store.State()), k)
  {
    if !fs.kind(source).Directory? {
      r := BundleFile(fs, source, dest, store);
      return;
    }
    if fs.listing(source).None? {
      return Err(Io);
    }
    var names := fs.listing(source).value;
    ghost var target := Walk.ElementLoop(fs, source, dest, backup, 0, store.State(), k);
    var i := 0;
    while i < |names|
      invariant 0 <= i <= |names| && store.Valid()
      invariant Walk.ElementLoop(fs, source, dest, backup, i, store.State(), k) == target
      decreases |names| - i
    {
      var child := Child(source, names[i]);
      var o;
      if fs.kind(child).Directory? {
        o := BundleFolder(fs, child, backup, store, k);
      } else {
        o := CopyFileFromFolder(fs, child, dest, store);
      }
      if o.Err? {
        return o;
      }
      i := i + 1;
    }
    return Ok(());
  }

  /** `bundle_paths(source, base)`, the clock reading `now` given as a parameter. */
  method BundlePaths(fs: Fs, source: Path, base: Path, now: DateTime, store: StagingStore, ghost k: nat)
    returns (r: Result<Path, Error>)
    requires store.Valid() && ValidDateTime(now) && (source.absolute && fs.kind(source).Directory? ==> ElementBounded(fs, source, k))
    modifies store
    ensures store.Valid()
    ensures Step(r, store.State()) == Walk.BundlePaths(fs, source, base, now, old(store.State()), k)
  {
    var root := GenerateBundledName(base, now);
    var full := BuildFullBackupPath(source, root);
    var ok := store.CreateDirAll(full);
    if !ok {
      return Err(Io);
    }
    if !source.absolute {
      return Err(NotAbsolute);
    }
    var e := BundleElement(fs, source, full, root, store, k);
    if e.Err? {
      return Err(e.error);
    }
    return Ok(root);
  }
}
