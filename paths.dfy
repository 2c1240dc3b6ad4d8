/**
 * Paths as `std::path` sees them on a POSIX system: an optional root directory
 * followed by a sequence of components.  Components are never empty; "." and ".."
 * are kept as they are spelled, not resolved (so "./system-backup" has the two
 * components "." and "system-backup").
 *
 * The pure part of the bundler lives here: the root strip and join that both
 * `build_full_backup_path` and `create_folder_in_backup_structure` perform.
 */
module Paths {
  import opened Wrappers

  datatype Path = Path(absolute: bool, comps: seq<string>)

  /** The path made of the root (if any) and the first `i` components of `p`. */
  function PrefixAt(p: Path, i: nat): Path
    requires i <= |p.comps|
  {
    Path(p.absolute, p.comps[..i])
  }

  /** `p` is `q` or one of its ancestors (`Path::starts_with`). */
  predicate IsPrefix(p: Path, q: Path) {
    p.absolute == q.absolute && p.comps <= q.comps
  }

  /** `q` lies strictly below `p`. */
  predicate IsStrictPrefix(p: Path, q: Path) {
    IsPrefix(p, q) && |p.comps| < |q.comps|
  }

  /** One of the two paths lies on the other's way from the root. */
  predicate Comparable(p: Path, q: Path) {
    IsPrefix(p, q) || IsPrefix(q, p)
  }

  /** Every directory that `create_dir_all(p)` makes sure exists. */
  function Prefixes(p: Path): (s: set<Path>)
    ensures forall q :: q in s <==> IsPrefix(q, p)
  {
    var s := set i | 0 <= i <= |p.comps| :: PrefixAt(p, i);
    assert forall q :: IsPrefix(q, p) ==> q == PrefixAt(p, |q.comps|);
    s
  }

  /** `PathBuf::push` of a single relative file name. */
  function Child(p: Path, name: string): Path {
    Path(p.absolute, p.comps + [name])
  }

  /** `p.strip_prefix(Component::RootDir).unwrap_or(p)`: drops the root, keeps the components. */
  function StripRoot(p: Path): (r: Path)
    ensures !r.absolute && r.comps == p.comps
  {
    if p.absolute then Path(false, p.comps) else p
  }

  /** `base.join(rel)`: an absolute `rel` replaces `base`, a relative one is appended. */
  function Join(base: Path, rel: Path): Path {
    if rel.absolute then rel else Path(base.absolute, base.comps + rel.comps)
  }

  /** `build_full_backup_path(source, backup)`: the source's components under the backup folder.
      It reads no filesystem state. */
  function BuildFullBackupPath(source: Path, backup: Path): (r: Path)
    ensures r.absolute == backup.absolute
    ensures r.comps == backup.comps + source.comps
  {
    Join(backup, StripRoot(source))
  }

  /** `Path::file_name`: the last component, unless there is none or it is "..". */
  function FileName(p: Path): Option<string> {
    if |p.comps| == 0 || p.comps[|p.comps| - 1] == ".." then None
    else Some(p.comps[|p.comps| - 1])
  }

  /** `Path::parent`: `None` for the bare root and for the empty path. */
  function Parent(p: Path): Option<Path> {
    if |p.comps| == 0 then None else Some(PrefixAt(p, |p.comps| - 1))
  }

  /** `p.strip_prefix(root)`: the part of `p` below `root`, as a relative path. */
  function RelativeUnder(root: Path, p: Path): (r: Option<Path>)
    ensures r.Some? <==> IsPrefix(root, p)
    ensures r.Some? ==> !r.value.absolute && root.comps + r.value.comps == p.comps
  {
    if IsPrefix(root, p) then Some(Path(false, p.comps[|root.comps|..])) else None
  }

  /** `Path::display` on a POSIX system. */
  function Display(p: Path): string {
    (if p.absolute then "/" else "") + JoinComponents(p.comps)
  }

  function JoinComponents(cs: seq<string>): string {
    if |cs| == 0 then ""
    else if |cs| == 1 then cs[0]
    else JoinComponents(cs[..|cs| - 1]) + "/" + cs[|cs| - 1]
  }

  // ---------------------------------------------------------------------------
  // Properties of the mapping
  // ---------------------------------------------------------------------------

  /** The mapped path lies under the backup folder, and stripping the backup folder
      off again gives back the source with its root removed: the mapping has an inverse. */
  lemma MappedPathRoundTrip(source: Path, backup: Path)
    ensures IsPrefix(backup, BuildFullBackupPath(source, backup))
    ensures RelativeUnder(backup, BuildFullBackupPath(source, backup)) == Some(StripRoot(source))
    ensures Join(backup, StripRoot(source)) == BuildFullBackupPath(source, backup)
  {
    var r := BuildFullBackupPath(source, backup);
    assert r.comps[|backup.comps|..] == source.comps;
  }

  /** Prefix preservation, in both directions for sources of the same kind: `p2` extends
      `p1` exactly when `map(p2, r)` extends `map(p1, r)`. */
  lemma MapPreservesPrefix(p1: Path, p2: Path, r: Path)
    requires p1.absolute == p2.absolute
    ensures IsPrefix(p1, p2) <==> IsPrefix(BuildFullBackupPath(p1, r), BuildFullBackupPath(p2, r))
  {
    var m1, m2 := BuildFullBackupPath(p1, r), BuildFullBackupPath(p2, r);
    if IsPrefix(m1, m2) {
      assert p1.comps == m1.comps[|r.comps|..];
      assert p2.comps[..|p1.comps|] == m2.comps[|r.comps|..|r.comps| + |p1.comps|];
    }
  }

  /** The mapping forgets whether the source was absolute: "/a/b" and "a/b" land on the
      same destination. */
  lemma MapForgetsRoot(source: Path, r: Path)
    ensures BuildFullBackupPath(source, r) == BuildFullBackupPath(StripRoot(source), r)
  {
  }

  /** Mapping commutes with descending one level. */
  lemma MapChild(f: Path, name: string, r: Path)
    ensures BuildFullBackupPath(Child(f, name), r) == Child(BuildFullBackupPath(f, r), name)
  {
  }

  /** Two ancestors of the same path are ancestors of one another. */
  lemma CommonDescendantComparable(a: Path, b: Path, c: Path)
    requires IsPrefix(a, c) && IsPrefix(b, c)
    ensures Comparable(a, b)
  {
    if |a.comps| <= |b.comps| {
      assert a.comps == c.comps[..|a.comps|] == b.comps[..|a.comps|];
    } else {
      assert b.comps == c.comps[..|b.comps|] == a.comps[..|b.comps|];
    }
  }

  lemma PrefixTransitive(a: Path, b: Path, c: Path)
    requires IsPrefix(a, b) && IsPrefix(b, c)
    ensures IsPrefix(a, c)
  {
    assert a.comps == b.comps[..|a.comps|] == c.comps[..|a.comps|];
  }

  /** Joining one more component after a non-empty list puts a separator before it. */
  lemma JoinSnoc(init: seq<string>, last: string)
    ensures JoinComponents(init + [last]) == if |init| == 0 then last else JoinComponents(init) + "/" + last
  {
    var q := init + [last];
    assert q[..|q| - 1] == init;
  }

  lemma JoinExtendLast(cs: seq<string>, suffix: string)
    requires |cs| > 0
    ensures JoinComponents(cs[..|cs| - 1] + [cs[|cs| - 1] + suffix]) == JoinComponents(cs) + suffix
  {
    JoinSnoc(cs[..|cs| - 1], cs[|cs| - 1] + suffix);
  }

  /** A path without components displays as its root alone; one component follows it. */
  lemma DisplaySingle(p: Path, name: string)
    requires |p.comps| == 0
    ensures Display(Path(p.absolute, [name])) == Display(p) + name
  {
  }

  /** Appending text to the last component appends it to the displayed path. */
  lemma DisplayExtendLast(p: Path, suffix: string)
    requires |p.comps| > 0
    ensures Display(Path(p.absolute, p.comps[..|p.comps| - 1] + [p.comps[|p.comps| - 1] + suffix]))
         == Display(p) + suffix
  {
    JoinExtendLast(p.comps, suffix);
  }
}
