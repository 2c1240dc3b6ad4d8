/**
 * Where the bundler writes.  Every directory it creates is an ancestor or a descendant
 * of the mirrored path it is working on, and every file it writes lies strictly below
 * that path; for a whole `bundle_paths` call, nothing outside the timestamped staging
 * root is created or modified (ancestors of the root are what `create_dir_all` makes
 * on the way, and they are directories).
 */
module Frame {
  import opened Wrappers
  import opened Paths
  import opened Source
  import opened Timestamp
  import opened DestFs
  import opened Walk

  /** A file path whose content was created or changed from `d` to `d'`. */
  ghost predicate FileChanged(d: Dest, d': Dest, p: Path) {
    p in d'.files && (p !in d.files || d'.files[p] != d.files[p])
  }

  /** From `d` to `d'` only directories on the way to or below `anchor` were created and
      only files strictly below `anchor` were written; nothing was removed. */
  ghost predicate Confined(d: Dest, d': Dest, anchor: Path) {
    && Grows(d, d')
    && (forall p :: p in d'.dirs && p !in d.dirs ==> Comparable(p, anchor))
    && (forall p :: FileChanged(d, d', p) ==> IsStrictPrefix(anchor, p))
  }

  /** Every file written from `d` to `d'` is `top` or lies below it. */
  ghost predicate FilesWithin(d: Dest, d': Dest, top: Path) {
    forall p :: FileChanged(d, d', p) ==> IsPrefix(top, p)
  }

  /** No file at or below `top` differs between `d` and `d'`. */
  ghost predicate UnchangedUnder(d: Dest, d': Dest, top: Path) {
    forall p :: IsPrefix(top, p) ==> (p in d.files <==> p in d'.files) && (p in d.files ==> d.files[p] == d'.files[p])
  }

  /** Every directory created from `d` to `d'` is on the way to `top` or below it. */
  ghost predicate DirsWithin(d: Dest, d': Dest, top: Path) {
    forall p :: p in d'.dirs && p !in d.dirs ==> Comparable(p, top)
  }

  /** No directory at or below `top` was created from `d` to `d'`. */
  ghost predicate DirsKept(d: Dest, d': Dest, top: Path) {
    forall p :: IsPrefix(top, p) && p in d'.dirs ==> p in d.dirs
  }

  lemma DirsKeptNarrow(d: Dest, d': Dest, top: Path, below: Path)
    requires DirsKept(d, d', top) && IsPrefix(top, below)
    ensures DirsKept(d, d', below)
  {
    forall p | IsPrefix(below, p) ensures IsPrefix(top, p) {
      PrefixTransitive(top, below, p);
    }
  }

  /** `create_dir_all(p)` creates nothing at or below a path that is not an ancestor of `p`. */
  lemma CreateDirAllKeepsBelow(d: Dest, p: Path, top: Path)
    requires !IsPrefix(top, p)
    ensures DirsKept(d, CreateDirAll(d, p).dest, top)
  {
    forall q | IsPrefix(top, q) && q in CreateDirAll(d, p).dest.dirs ensures q in d.dirs {
      if q in Prefixes(p) {
        PrefixTransitive(top, q, p);
      }
    }
  }

  /** A step that creates directories only on the way to or below the slot `full/a`
      creates none at or below a sibling slot `full/b`. */
  lemma SiblingDirsKept(d: Dest, d': Dest, full: Path, a: string, b: string)
    requires a != b && DirsWithin(d, d', Child(full, a))
    ensures DirsKept(d, d', Child(full, b))
  {
    forall p | IsPrefix(Child(full, b), p) && p in d'.dirs ensures p in d.dirs {
      if p !in d.dirs && IsPrefix(Child(full, a), p) {
        SlotsDisjoint(full, a, b, p);
      }
    }
  }

  lemma ConfinedTrans(a: Dest, b: Dest, c: Dest, x: Path, y: Path)
    requires Confined(a, b, x) && Confined(b, c, y) && IsPrefix(x, y)
    ensures Confined(a, c, x)
  {
    forall p | p in c.dirs && p !in a.dirs ensures Comparable(p, x) {
      if p !in b.dirs {
        if IsPrefix(p, y) {
          CommonDescendantComparable(p, x, y);
        } else {
          PrefixTransitive(x, y, p);
        }
      }
    }
    forall p | FileChanged(a, c, p) ensures IsStrictPrefix(x, p) {
      if FileChanged(b, c, p) {
        PrefixTransitive(x, y, p);
      }
    }
  }

  lemma ConfinedWeaken(a: Dest, b: Dest, x: Path, y: Path)
    requires Confined(a, b, y) && IsPrefix(x, y)
    ensures Confined(a, b, x)
  {
    ConfinedTrans(a, a, b, x, y);
  }

  /** `create_dir_all(p)` stays on the way to `p`, so within any ancestor of `p`. */
  lemma CreateDirAllConfined(d: Dest, p: Path, anchor: Path)
    requires IsPrefix(anchor, p)
    ensures Confined(d, CreateDirAll(d, p).dest, anchor)
  {
    forall q | q in CreateDirAll(d, p).dest.dirs && q !in d.dirs ensures Comparable(q, anchor) {
      CommonDescendantComparable(q, anchor, p);
    }
  }

  /** `copy_file_from_folder(file, folder)` writes at most `folder/name(file)`. */
  lemma CopyConfined(fs: Fs, file: Path, folder: Path, d: Dest)
    ensures Confined(d, CopyFileFromFolder(fs, file, folder, d).dest, folder)
    ensures FileName(file).Some? ==> FilesWithin(d, CopyFileFromFolder(fs, file, folder, d).dest, Child(folder, FileName(file).value))
  {
  }

  /** `bundle_folder(folder, backup)` stays within `map(folder, backup)`. */
  lemma {:induction false} FolderConfined(fs: Fs, folder: Path, backup: Path, d: Dest, k: nat)
    requires WalkBounded(fs, folder, k)
    ensures Confined(d, BundleFolder(fs, folder, backup, d, k).dest, BuildFullBackupPath(folder, backup))
    decreases k, 2, 0
  {
    if fs.kind(folder).Directory? {
      var full := BuildFullBackupPath(folder, backup);
      var c := CreateFolderInBackupStructure(folder, backup, d);
      CreateDirAllConfined(d, full, full);
      if c.res.Ok? && fs.canon(folder).Some? && fs.listing(folder).Some? {
        LoopConfined(fs, folder, full, backup, 0, c.dest, k);
        ConfinedTrans(d, c.dest, BundleFolder(fs, folder, backup, d, k).dest, full, full);
      }
    }
  }

  lemma {:induction false} LoopConfined(fs: Fs, folder: Path, full: Path, backup: Path, i: nat, d: Dest, k: nat)
    requires i <= |Names(fs, folder)| && WalkBounded(fs, folder, k)
    requires full in d.dirs && full == BuildFullBackupPath(folder, backup)
    ensures Confined(d, FolderLoop(fs, folder, full, backup, i, d, k).dest, full)
    decreases k, 1, |Names(fs, folder)| - i
  {
    if i < |Names(fs, folder)| {
      var s := FolderChild(fs, folder, full, backup, Names(fs, folder)[i], d, k);
      ChildConfined(fs, folder, full, backup, Names(fs, folder)[i], d, k);
      if s.res.Ok? {
        LoopConfined(fs, folder, full, backup, i + 1, s.dest, k);
        ConfinedTrans(d, s.dest, FolderLoop(fs, folder, full, backup, i, d, k).dest, full, full);
      }
    }
  }

  /** One child of the loop writes only at or below its own mirrored slot `full/name`. */
  lemma {:induction false} ChildConfined(fs: Fs, folder: Path, full: Path, backup: Path, name: string, d: Dest, k: nat)
    requires k > 0 && (Recurses(fs, folder, name) ==> WalkBounded(fs, Child(folder, name), k - 1))
    requires full == BuildFullBackupPath(folder, backup)
    ensures Confined(d, FolderChild(fs, folder, full, backup, name, d, k).dest, full)
    ensures FilesWithin(d, FolderChild(fs, folder, full, backup, name, d, k).dest, Child(full, name))
    ensures DirsWithin(d, FolderChild(fs, folder, full, backup, name, d, k).dest, Child(full, name))
    decreases k, 0, 0
  {
    var c := Child(folder, name);
    var s := FolderChild(fs, folder, full, backup, name, d, k);
    if fs.kind(c).Directory? {
      if Recurses(fs, folder, name) {
        FolderConfined(fs, c, backup, d, k - 1);
        MapChild(folder, name, backup);
        ConfinedWeaken(d, s.dest, full, Child(full, name));
      }
    } else {
      CopyConfined(fs, c, full, d);
    }
  }

  /** Paths below two different children of one directory are different. */
  lemma SlotsDisjoint(full: Path, a: string, b: string, p: Path)
    requires a != b && IsPrefix(Child(full, a), p)
    ensures !IsPrefix(Child(full, b), p)
  {
    assert p.comps[|full.comps|] == a;
  }

  /** Growing without changing any file at or below `top` leaves `top` unchanged. */
  lemma UnchangedByGrowth(d: Dest, d': Dest, top: Path)
    requires Grows(d, d') && forall p :: IsPrefix(top, p) ==> !FileChanged(d, d', p)
    ensures UnchangedUnder(d, d', top)
  {
  }

  lemma UnchangedTrans(a: Dest, b: Dest, c: Dest, top: Path)
    requires UnchangedUnder(a, b, top) && UnchangedUnder(b, c, top)
    ensures UnchangedUnder(a, c, top)
  {
  }

  /** Later children of the loop leave the slot `full/name` of an earlier child alone. */
  lemma {:induction false} LoopUntouched(fs: Fs, folder: Path, full: Path, backup: Path, i: nat, d: Dest, k: nat, name: string)
    requires i <= |Names(fs, folder)| && WalkBounded(fs, folder, k)
    requires full in d.dirs && full == BuildFullBackupPath(folder, backup)
    requires forall j :: i <= j < |Names(fs, folder)| ==> Names(fs, folder)[j] != name
    ensures UnchangedUnder(d, FolderLoop(fs, folder, full, backup, i, d, k).dest, Child(full, name))
    decreases |Names(fs, folder)| - i
  {
    if i < |Names(fs, folder)| {
      var other := Names(fs, folder)[i];
      var s := FolderChild(fs, folder, full, backup, other, d, k);
      ChildConfined(fs, folder, full, backup, other, d, k);
      forall p | IsPrefix(Child(full, name), p) ensures !FileChanged(d, s.dest, p) {
        SlotsDisjoint(full, name, other, p);
      }
      UnchangedByGrowth(d, s.dest, Child(full, name));
      if s.res.Ok? {
        LoopUntouched(fs, folder, full, backup, i + 1, s.dest, k, name);
        UnchangedTrans(d, s.dest, FolderLoop(fs, folder, full, backup, i, d, k).dest, Child(full, name));
      }
    }
  }

  /** The parent of `map(source, dest)` is `dest` or lies below it. */
  lemma MappedParentWithin(source: Path, dest: Path)
    requires Parent(BuildFullBackupPath(source, dest)).Some?
    ensures IsPrefix(Parent(BuildFullBackupPath(source, dest)).value, BuildFullBackupPath(source, dest))
    ensures Comparable(Parent(BuildFullBackupPath(source, dest)).value, dest)
  {
    var full := BuildFullBackupPath(source, dest);
    CommonDescendantComparable(Parent(full).value, dest, full);
  }

  /** Copying a file named as `source` into the parent of `map(source, dest)` targets
      `map(source, dest)` itself, which lies strictly below `dest`. */
  lemma MappedFileTarget(source: Path, dest: Path)
    requires FileName(source).Some?
    ensures var full := BuildFullBackupPath(source, dest);
      && Parent(full).Some?
      && Child(Parent(full).value, FileName(source).value) == full
      && IsStrictPrefix(dest, full)
  {
    var full := BuildFullBackupPath(source, dest);
    var n := |full.comps|;
    assert full.comps[n - 1] == source.comps[|source.comps| - 1];
    assert full.comps[..n - 1] + [full.comps[n - 1]] == full.comps;
    assert full.comps[..|dest.comps|] == dest.comps;
  }

  /** `bundle_file(source, dest)` stays strictly within `dest`. */
  lemma BundleFileConfined(fs: Fs, source: Path, dest: Path, d: Dest)
    ensures Confined(d, BundleFile(fs, source, dest, d).dest, dest)
  {
    if fs.kind(source).RegularFile? {
      var full := BuildFullBackupPath(source, dest);
      if Parent(full).Some? {
        var parent := Parent(full).value;
        MappedParentWithin(source, dest);
        var c := CreateDirAll(d, parent);
        forall q | q in c.dest.dirs && q !in d.dirs ensures Comparable(q, dest) {
          PrefixTransitive(q, parent, full);
          CommonDescendantComparable(q, dest, full);
        }
        assert Confined(d, c.dest, dest);
        if c.res.Ok? {
          var r := CopyFileFromFolder(fs, source, parent, c.dest);
          assert BundleFile(fs, source, dest, d) == r;
          if FileName(source).Some? {
            MappedFileTarget(source, dest);
            forall p | FileChanged(c.dest, r.dest, p) ensures IsStrictPrefix(dest, p) {
              assert p == full;
            }
          }
          ConfinedTrans(d, c.dest, r.dest, dest, dest);
        }
      }
    }
  }

  /** `bundle_element(source, map(source, backup), backup)` stays within `map(source, backup)`. */
  lemma BundleElementConfined(fs: Fs, source: Path, dest: Path, backup: Path, d: Dest, k: nat)
    requires (fs.kind(source).Directory? ==> ElementBounded(fs, source, k)) && dest == BuildFullBackupPath(source, backup)
    ensures Confined(d, BundleElement(fs, source, dest, backup, d, k).dest, dest)
  {
    if fs.kind(source).Directory? {
      if fs.listing(source).Some? {
        ElementLoopConfined(fs, source, dest, backup, 0, d, k);
      }
    } else {
      BundleFileConfined(fs, source, dest, d);
    }
  }

  /** One child of `bundle_element`'s loop writes only at or below its own slot `dest/name`. */
  lemma ElementChildConfined(fs: Fs, source: Path, dest: Path, backup: Path, name: string, d: Dest, k: nat)
    requires fs.kind(Child(source, name)).Directory? ==> WalkBounded(fs, Child(source, name), k)
    requires dest == BuildFullBackupPath(source, backup)
    ensures Confined(d, ElementChild(fs, source, dest, backup, name, d, k).dest, dest)
    ensures FilesWithin(d, ElementChild(fs, source, dest, backup, name, d, k).dest, Child(dest, name))
    ensures DirsWithin(d, ElementChild(fs, source, dest, backup, name, d, k).dest, Child(dest, name))
  {
    var c := Child(source, name);
    var s := ElementChild(fs, source, dest, backup, name, d, k);
    MapChild(source, name, backup);
    if fs.kind(c).Directory? {
      FolderConfined(fs, c, backup, d, k);
      ConfinedWeaken(d, s.dest, dest, Child(dest, name));
    } else {
      CopyConfined(fs, c, dest, d);
    }
  }

  lemma {:induction false} ElementLoopConfined(fs: Fs, source: Path, dest: Path, backup: Path, i: nat, d: Dest, k: nat)
    requires i <= |Names(fs, source)| && ElementBounded(fs, source, k)
    requires dest == BuildFullBackupPath(source, backup)
    ensures Confined(d, ElementLoop(fs, source, dest, backup, i, d, k).dest, dest)
    decreases |Names(fs, source)| - i
  {
    if i < |Names(fs, source)| {
      var name := Names(fs, source)[i];
      var s := ElementChild(fs, source, dest, backup, name, d, k);
      ElementChildConfined(fs, source, dest, backup, name, d, k);
      if s.res.Ok? {
        ElementLoopConfined(fs, source, dest, backup, i + 1, s.dest, k);
        ConfinedTrans(d, s.dest, ElementLoop(fs, source, dest, backup, i, d, k).dest, dest, dest);
      }
    }
  }

  /** The frame property of a whole bundling call: outside the timestamped staging root,
      at most the root's own ancestors are created as directories; every directory made
      otherwise, and every file written, lies below the root.  This holds on every path
      through the code, errors included. */
  lemma BundlePathsConfined(fs: Fs, source: Path, base: Path, now: DateTime, d: Dest, k: nat)
    requires ValidDateTime(now) && (source.absolute && fs.kind(source).Directory? ==> ElementBounded(fs, source, k))
    ensures Confined(d, BundlePaths(fs, source, base, now, d, k).dest, GenerateBundledName(base, now))
  {
    var root := GenerateBundledName(base, now);
    var full := BuildFullBackupPath(source, root);
    MappedPathRoundTrip(source, root);
    CreateDirAllConfined(d, full, root);
    var c := CreateDirAll(d, full);
    if c.res.Ok? && source.absolute {
      BundleElementConfined(fs, source, full, root, c.dest, k);
      ConfinedTrans(d, c.dest, BundlePaths(fs, source, base, now, d, k).dest, root, full);
    }
  }
}
