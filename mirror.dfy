/**
 * Tree fidelity: after a successful walk every readable regular file `x` that the walk
 * reaches is found at `map(x, root)` with its content, and every directory it enters
 * exists at `map(dir, root)`, however deep it lies, because nested directories are
 * always mapped against the run's root.  The one way a readable file can fail to land
 * is a directory that already sat at its destination before the walk began, which makes
 * `fs::copy` fail silently; the walk itself never creates a directory there.
 *
 * These rely on the operating system's guarantee that a listing names each entry once
 * (`ProperListings`): otherwise a later entry could overwrite an earlier one.
 */
module Mirror {
  import opened Wrappers
  import opened Paths
  import opened Source
  import opened Timestamp
  import opened DestFs
  import opened Walk
  import opened Frame

  /** `p` holds `content` in `d`, unless `p` was already a directory in the store `d0`
      the walk started from, so that the copy onto it was refused. */
  ghost predicate Landed(d0: Dest, d: Dest, p: Path, content: Content) {
    p in d0.dirs || (p in d.files && d.files[p] == content)
  }

  /** The child `name` of `folder` is mirrored under `backup`: as a file if it is a
      readable regular file, as a mirrored folder if the guard lets the walk into it. */
  ghost predicate ChildMirrored(fs: Fs, folder: Path, backup: Path, name: string, d0: Dest, d: Dest, k: nat)
    decreases k, 0
  {
    var c := Child(folder, name);
    && (fs.kind(c).RegularFile? && c !in fs.unreadable ==> Landed(d0, d, BuildFullBackupPath(c, backup), fs.kind(c).content))
    && (Recurses(fs, folder, name) ==> k > 0 && MirroredFolder(fs, c, backup, d0, d, k - 1))
  }

  /** `folder` exists at `map(folder, backup)` and all its children are mirrored. */
  ghost predicate MirroredFolder(fs: Fs, folder: Path, backup: Path, d0: Dest, d: Dest, k: nat)
    decreases k, 1
  {
    && BuildFullBackupPath(folder, backup) in d.dirs
    && forall i :: 0 <= i < |Names(fs, folder)| ==> ChildMirrored(fs, folder, backup, Names(fs, folder)[i], d0, d, k)
  }

  /** The children of a top-level source directory are mirrored: `bundle_element` copies
      its files and hands every directory child, unguarded, to `bundle_folder`. */
  ghost predicate SourceChildMirrored(fs: Fs, source: Path, backup: Path, name: string, d0: Dest, d: Dest, k: nat) {
    var c := Child(source, name);
    && (fs.kind(c).RegularFile? && c !in fs.unreadable ==> Landed(d0, d, BuildFullBackupPath(c, backup), fs.kind(c).content))
    && (fs.kind(c).Directory? ==> MirroredFolder(fs, c, backup, d0, d, k))
  }

  ghost predicate SourceMirrored(fs: Fs, source: Path, backup: Path, d0: Dest, d: Dest, k: nat) {
    forall i :: 0 <= i < |Names(fs, source)| ==> SourceChildMirrored(fs, source, backup, Names(fs, source)[i], d0, d, k)
  }

  // ---------------------------------------------------------------------------
  // Mirroring survives steps that leave its part of the destination alone
  // ---------------------------------------------------------------------------

  lemma UnchangedNarrow(d: Dest, d': Dest, top: Path, below: Path)
    requires UnchangedUnder(d, d', top) && IsPrefix(top, below)
    ensures UnchangedUnder(d, d', below)
  {
    forall p | IsPrefix(below, p) ensures IsPrefix(top, p) {
      PrefixTransitive(top, below, p);
    }
  }

  lemma {:induction false} MirroredPreserved(fs: Fs, folder: Path, backup: Path, d0: Dest, d: Dest, d': Dest, k: nat)
    requires MirroredFolder(fs, folder, backup, d0, d, k)
    requires Grows(d, d') && UnchangedUnder(d, d', BuildFullBackupPath(folder, backup))
    ensures MirroredFolder(fs, folder, backup, d0, d', k)
    decreases k, 1
  {
    forall i | 0 <= i < |Names(fs, folder)|
      ensures ChildMirrored(fs, folder, backup, Names(fs, folder)[i], d0, d', k)
    {
      var name := Names(fs, folder)[i];
      MapChild(folder, name, backup);
      UnchangedNarrow(d, d', BuildFullBackupPath(folder, backup), BuildFullBackupPath(Child(folder, name), backup));
      ChildMirroredPreserved(fs, folder, backup, name, d0, d, d', k);
    }
  }

  lemma {:induction false} ChildMirroredPreserved(fs: Fs, folder: Path, backup: Path, name: string, d0: Dest, d: Dest, d': Dest, k: nat)
    requires ChildMirrored(fs, folder, backup, name, d0, d, k)
    requires Grows(d, d') && UnchangedUnder(d, d', BuildFullBackupPath(Child(folder, name), backup))
    ensures ChildMirrored(fs, folder, backup, name, d0, d', k)
    decreases k, 0
  {
    if Recurses(fs, folder, name) {
      MirroredPreserved(fs, Child(folder, name), backup, d0, d, d', k - 1);
    }
  }

  lemma SourceChildMirroredPreserved(fs: Fs, source: Path, backup: Path, name: string, d0: Dest, d: Dest, d': Dest, k: nat)
    requires SourceChildMirrored(fs, source, backup, name, d0, d, k)
    requires Grows(d, d') && UnchangedUnder(d, d', BuildFullBackupPath(Child(source, name), backup))
    ensures SourceChildMirrored(fs, source, backup, name, d0, d', k)
  {
    if fs.kind(Child(source, name)).Directory? {
      MirroredPreserved(fs, Child(source, name), backup, d0, d, d', k);
    }
  }

  // ---------------------------------------------------------------------------
  // Mirroring measured from an earlier store, when no directory was made in between
  // at or below the mirrored path
  // ---------------------------------------------------------------------------

  lemma {:induction false} MirroredRebase(fs: Fs, folder: Path, backup: Path, d0: Dest, d1: Dest, d: Dest, k: nat)
    requires MirroredFolder(fs, folder, backup, d1, d, k)
    requires DirsKept(d0, d1, BuildFullBackupPath(folder, backup))
    ensures MirroredFolder(fs, folder, backup, d0, d, k)
    decreases k, 1
  {
    forall i | 0 <= i < |Names(fs, folder)|
      ensures ChildMirrored(fs, folder, backup, Names(fs, folder)[i], d0, d, k)
    {
      var name := Names(fs, folder)[i];
      MapChild(folder, name, backup);
      DirsKeptNarrow(d0, d1, BuildFullBackupPath(folder, backup), BuildFullBackupPath(Child(folder, name), backup));
      ChildMirroredRebase(fs, folder, backup, name, d0, d1, d, k);
    }
  }

  lemma {:induction false} ChildMirroredRebase(fs: Fs, folder: Path, backup: Path, name: string, d0: Dest, d1: Dest, d: Dest, k: nat)
    requires ChildMirrored(fs, folder, backup, name, d1, d, k)
    requires DirsKept(d0, d1, BuildFullBackupPath(Child(folder, name), backup))
    ensures ChildMirrored(fs, folder, backup, name, d0, d, k)
    decreases k, 0
  {
    if Recurses(fs, folder, name) {
      MirroredRebase(fs, Child(folder, name), backup, d0, d1, d, k - 1);
    }
  }

  lemma SourceChildMirroredRebase(fs: Fs, source: Path, backup: Path, name: string, d0: Dest, d1: Dest, d: Dest, k: nat)
    requires SourceChildMirrored(fs, source, backup, name, d1, d, k)
    requires DirsKept(d0, d1, BuildFullBackupPath(Child(source, name), backup))
    ensures SourceChildMirrored(fs, source, backup, name, d0, d, k)
  {
    if fs.kind(Child(source, name)).Directory? {
      MirroredRebase(fs, Child(source, name), backup, d0, d1, d, k);
    }
  }

  // ---------------------------------------------------------------------------
  // bundle_folder mirrors the tree it walks
  // ---------------------------------------------------------------------------

  /** A readable regular file copied into an existing folder lands at `folder/name`,
      unless a directory sits there. */
  lemma CopyLands(fs: Fs, file: Path, folder: Path, d: Dest)
    requires fs.kind(file).RegularFile? && file !in fs.unreadable && FileName(file).Some?
    requires folder in d.dirs
    ensures Landed(d, CopyFileFromFolder(fs, file, folder, d).dest, Child(folder, FileName(file).value), fs.kind(file).content)
  {
    var target := Child(folder, FileName(file).value);
    assert PrefixAt(target, |target.comps| - 1) == folder;
  }

  /** After `bundle_folder(folder, backup)` succeeds, `folder` is mirrored: every readable
      regular file `x` it reaches is at `map(x, backup)` with its content, unless a
      directory already stood there in `d`. */
  lemma {:induction false} FolderMirrors(fs: Fs, folder: Path, backup: Path, d: Dest, k: nat)
    requires WalkBounded(fs, folder, k) && ProperListings(fs)
    ensures BundleFolder(fs, folder, backup, d, k).res.Ok? ==> MirroredFolder(fs, folder, backup, d, BundleFolder(fs, folder, backup, d, k).dest, k)
    decreases k, 2
  {
    var r := BundleFolder(fs, folder, backup, d, k);
    if r.res.Ok? {
      var full := BuildFullBackupPath(folder, backup);
      var c := CreateFolderInBackupStructure(folder, backup, d);
      assert c.dest == CreateDirAll(d, full).dest;
      forall j | 0 <= j < |Names(fs, folder)| ensures ChildMirrored(fs, folder, backup, Names(fs, folder)[j], d, r.dest, k) {
        var name := Names(fs, folder)[j];
        LoopMirrors(fs, folder, full, backup, 0, c.dest, k, j);
        MapChild(folder, name, backup);
        CreateDirAllKeepsBelow(d, full, Child(full, name));
        ChildMirroredRebase(fs, folder, backup, name, d, c.dest, r.dest, k);
      }
    }
  }

  /** After the loop succeeds from entry `i` on, the `j`-th entry (`j >= i`) is mirrored:
      it is mirrored when handled, the entries before it make no directory in its slot,
      and the entries after it leave its slot alone. */
  lemma {:induction false} LoopMirrors(fs: Fs, folder: Path, full: Path, backup: Path, i: nat, d: Dest, k: nat, j: nat)
    requires i <= j < |Names(fs, folder)| && WalkBounded(fs, folder, k) && ProperListings(fs)
    requires full in d.dirs && full == BuildFullBackupPath(folder, backup)
    ensures var r := FolderLoop(fs, folder, full, backup, i, d, k);
      r.res.Ok? ==> ChildMirrored(fs, folder, backup, Names(fs, folder)[j], d, r.dest, k)
    decreases k, 1, |Names(fs, folder)| - i
  {
    var names := Names(fs, folder);
    var r := FolderLoop(fs, folder, full, backup, i, d, k);
    var s := FolderChild(fs, folder, full, backup, names[i], d, k);
    if r.res.Ok? {
      assert s.res.Ok? && r == FolderLoop(fs, folder, full, backup, i + 1, s.dest, k);
      if j == i {
        ListingEntry(fs, folder, i);
        ChildMirrors(fs, folder, full, backup, names[i], d, k);
        LoopUntouched(fs, folder, full, backup, i + 1, s.dest, k, names[i]);
        MapChild(folder, names[i], backup);
        ChildMirroredPreserved(fs, folder, backup, names[i], d, s.dest, r.dest, k);
      } else {
        LoopMirrors(fs, folder, full, backup, i + 1, s.dest, k, j);
        ListingEntry(fs, folder, i);
        ChildConfined(fs, folder, full, backup, names[i], d, k);
        SiblingDirsKept(d, s.dest, full, names[i], names[j]);
        MapChild(folder, names[j], backup);
        ChildMirroredRebase(fs, folder, backup, names[j], d, s.dest, r.dest, k);
      }
    }
  }

  lemma {:induction false} ChildMirrors(fs: Fs, folder: Path, full: Path, backup: Path, name: string, d: Dest, k: nat)
    requires k > 0 && (Recurses(fs, folder, name) ==> WalkBounded(fs, Child(folder, name), k - 1))
    requires ProperListings(fs) && ProperName(name)
    requires full in d.dirs && full == BuildFullBackupPath(folder, backup)
    ensures var s := FolderChild(fs, folder, full, backup, name, d, k);
      s.res.Ok? ==> ChildMirrored(fs, folder, backup, name, d, s.dest, k)
    decreases k, 0
  {
    var c := Child(folder, name);
    MapChild(folder, name, backup);
    if fs.kind(c).RegularFile? && c !in fs.unreadable {
      CopyLands(fs, c, full, d);
    }
    if Recurses(fs, folder, name) {
      FolderMirrors(fs, c, backup, d, k - 1);
    }
  }

  // ---------------------------------------------------------------------------
  // bundle_element and bundle_paths
  // ---------------------------------------------------------------------------

  /** Later children of `bundle_element`'s loop leave the slot of an earlier one alone. */
  lemma {:induction false} ElementLoopUntouched(fs: Fs, source: Path, dest: Path, backup: Path, i: nat, d: Dest, k: nat, name: string)
    requires i <= |Names(fs, source)| && ElementBounded(fs, source, k)
    requires dest == BuildFullBackupPath(source, backup)
    requires forall j :: i <= j < |Names(fs, source)| ==> Names(fs, source)[j] != name
    ensures UnchangedUnder(d, ElementLoop(fs, source, dest, backup, i, d, k).dest, Child(dest, name))
    decreases |Names(fs, source)| - i
  {
    if i < |Names(fs, source)| {
      var other := Names(fs, source)[i];
      var s := ElementChild(fs, source, dest, backup, other, d, k);
      ElementChildConfined(fs, source, dest, backup, other, d, k);
      forall p | IsPrefix(Child(dest, name), p) ensures !FileChanged(d, s.dest, p) {
        SlotsDisjoint(dest, name, other, p);
      }
      UnchangedByGrowth(d, s.dest, Child(dest, name));
      if s.res.Ok? {
        ElementLoopUntouched(fs, source, dest, backup, i + 1, s.dest, k, name);
        UnchangedTrans(d, s.dest, ElementLoop(fs, source, dest, backup, i, d, k).dest, Child(dest, name));
      }
    }
  }

  /** One child of `bundle_element`'s loop, once handled successfully, is mirrored. */
  lemma ElementChildMirrors(fs: Fs, source: Path, dest: Path, backup: Path, name: string, d: Dest, k: nat)
    requires fs.kind(Child(source, name)).Directory? ==> WalkBounded(fs, Child(source, name), k)
    requires ProperListings(fs) && ProperName(name)
    requires dest in d.dirs && dest == BuildFullBackupPath(source, backup)
    ensures var s := ElementChild(fs, source, dest, backup, name, d, k);
      s.res.Ok? ==> SourceChildMirrored(fs, source, backup, name, d, s.dest, k)
  {
    var c := Child(source, name);
    MapChild(source, name, backup);
    if fs.kind(c).Directory? {
      FolderMirrors(fs, c, backup, d, k);
    } else if fs.kind(c).RegularFile? && c !in fs.unreadable {
      CopyLands(fs, c, dest, d);
    }
  }

  /** After `bundle_element`'s loop succeeds from child `i` on, the `j`-th child
      (`j >= i`) is mirrored. */
  lemma {:induction false} ElementLoopMirrors(fs: Fs, source: Path, dest: Path, backup: Path, i: nat, d: Dest, k: nat, j: nat)
    requires i <= j < |Names(fs, source)| && ElementBounded(fs, source, k) && ProperListings(fs)
    requires dest in d.dirs && dest == BuildFullBackupPath(source, backup)
    ensures var r := ElementLoop(fs, source, dest, backup, i, d, k);
      r.res.Ok? ==> SourceChildMirrored(fs, source, backup, Names(fs, source)[j], d, r.dest, k)
    decreases |Names(fs, source)| - i
  {
    var names := Names(fs, source);
    var r := ElementLoop(fs, source, dest, backup, i, d, k);
    var name := names[i];
    var s := ElementChild(fs, source, dest, backup, name, d, k);
    if r.res.Ok? {
      assert s.res.Ok? && r == ElementLoop(fs, source, dest, backup, i + 1, s.dest, k);
      if j == i {
        ListingEntry(fs, source, i);
        ElementChildMirrors(fs, source, dest, backup, name, d, k);
        ElementLoopUntouched(fs, source, dest, backup, i + 1, s.dest, k, name);
        MapChild(source, name, backup);
        SourceChildMirroredPreserved(fs, source, backup, name, d, s.dest, r.dest, k);
      } else {
        ElementLoopMirrors(fs, source, dest, backup, i + 1, s.dest, k, j);
        ListingEntry(fs, source, i);
        ElementChildConfined(fs, source, dest, backup, name, d, k);
        SiblingDirsKept(d, s.dest, dest, name, names[j]);
        MapChild(source, names[j], backup);
        SourceChildMirroredRebase(fs, source, backup, names[j], d, s.dest, r.dest, k);
      }
    }
  }

  /** Tree fidelity of a successful `bundle_paths` on a directory: each regular file child
      `x` of the source is at `map(x, root)` (`root` being the timestamped staging root),
      each directory child `c` is mirrored at `map(c, root)` with its whole guarded subtree,
      and the source itself is mirrored at `map(source, root)`.  A file is missing only
      where a directory stood at its destination before the run. */
  lemma BundlePathsMirrorsDirectory(fs: Fs, source: Path, base: Path, now: DateTime, d: Dest, k: nat)
    requires ValidDateTime(now) && ElementBounded(fs, source, k) && ProperListings(fs)
    requires fs.kind(source).Directory?
    ensures var r := BundlePaths(fs, source, base, now, d, k);
      r.res.Ok? ==>
        && BuildFullBackupPath(source, r.res.value) in r.dest.dirs
        && SourceMirrored(fs, source, r.res.value, d, r.dest, k)
  {
    var root := GenerateBundledName(base, now);
    var full := BuildFullBackupPath(source, root);
    var c := CreateDirAll(d, full);
    var r := BundlePaths(fs, source, base, now, d, k);
    if r.res.Ok? {
      assert r.dest == ElementLoop(fs, source, full, root, 0, c.dest, k).dest;
      forall j | 0 <= j < |Names(fs, source)| ensures SourceChildMirrored(fs, source, root, Names(fs, source)[j], d, r.dest, k) {
        var name := Names(fs, source)[j];
        ElementLoopMirrors(fs, source, full, root, 0, c.dest, k, j);
        MapChild(source, name, root);
        CreateDirAllKeepsBelow(d, full, Child(full, name));
        SourceChildMirroredRebase(fs, source, root, name, d, c.dest, r.dest, k);
      }
    }
  }

  /** `bundle_file(source, dest)` on a readable regular file creates the parent of
      `map(source, dest)` with all its prefixes and lands the file at `map(source, dest)`
      with its content, unless a directory already stood there. */
  lemma BundleFileLands(fs: Fs, source: Path, dest: Path, d: Dest)
    requires fs.kind(source).RegularFile? && source !in fs.unreadable && FileName(source).Some?
    ensures var full := BuildFullBackupPath(source, dest);
      var r := BundleFile(fs, source, dest, d);
      r.res.Ok? ==>
        && Parent(full).Some?
        && Prefixes(Parent(full).value) <= r.dest.dirs
        && Landed(d, r.dest, full, fs.kind(source).content)
  {
    var full := BuildFullBackupPath(source, dest);
    var r := BundleFile(fs, source, dest, d);
    if r.res.Ok? {
      var parent := Parent(full).value;
      var c := CreateDirAll(d, parent);
      assert r == CopyFileFromFolder(fs, source, parent, c.dest);
      assert full == Child(parent, FileName(source).value);
      assert IsPrefix(parent, parent);
      CopyLands(fs, source, parent, c.dest);
      CreateDirAllKeepsBelow(d, parent, full);
    }
  }

  /** A regular-file source is mirrored twice: `bundle_paths` first makes `map(src, root)`
      a directory, and `bundle_file` maps the source again below it, so the copy lands at
      `map(src, map(src, root))` with its content, unless a directory stood there before
      the run (never so when the run starts from an empty store).  The directories on the
      way exist. */
  lemma BundlePathsMirrorsFileTwice(fs: Fs, source: Path, base: Path, now: DateTime, d: Dest, k: nat)
    requires ValidDateTime(now)
    requires fs.kind(source).RegularFile? && source !in fs.unreadable && FileName(source).Some?
    ensures var r := BundlePaths(fs, source, base, now, d, k);
      var once := BuildFullBackupPath(source, GenerateBundledName(base, now));
      var twice := BuildFullBackupPath(source, once);
      r.res.Ok? ==>
        && Prefixes(once) <= r.dest.dirs
        && Prefixes(Parent(twice).value) <= r.dest.dirs
        && Landed(d, r.dest, twice, fs.kind(source).content)
  {
    var root := GenerateBundledName(base, now);
    var once := BuildFullBackupPath(source, root);
    var c := CreateDirAll(d, once);
    var r := BundlePaths(fs, source, base, now, d, k);
    if r.res.Ok? {
      var e := BundleElement(fs, source, once, root, c.dest, k);
      assert r.dest == e.dest && e.res.Ok?;
      assert e == BundleFile(fs, source, once, c.dest);
      BundleFileLands(fs, source, once, c.dest);
      CreateDirAllKeepsBelow(d, once, BuildFullBackupPath(source, once));
    }
  }
}
