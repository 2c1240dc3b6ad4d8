/**
 * The source side: an immutable filesystem, as the bundler's queries see it.
 *
 * `kind` answers `is_dir` / `is_file`, both of which follow symbolic links; a path that
 * does not exist, a socket, a device or a dangling link all read as `Other`.  `listing`
 * gives the names `read_dir` yields, in the order it yields them (never assumed sorted),
 * or `None` when enumeration fails.  `canon` is `canonicalize`, `None` when it fails.
 * `unreadable` are the files `fs::copy` cannot read.
 *
 * The three queries are total functions over all paths, so a symbolic link pointing
 * upwards makes an infinite space of nested paths, as it does on a real system.
 */
module Source {
  import opened Wrappers
  import opened Paths

  /** File bytes; only equality of contents matters to the model. */
  type Content = seq<bv8>

  datatype Entry = RegularFile(content: Content) | Directory | Other

  datatype Fs = Fs(
    kind: Path -> Entry,
    listing: Path -> Option<seq<string>>,
    canon: Path -> Option<Path>,
    unreadable: set<Path>)

  /** The names `read_dir(dir)` yields; empty when it fails. */
  function Names(fs: Fs, dir: Path): seq<string> {
    match fs.listing(dir)
    case Some(names) => names
    case None => []
  }

  /** The guard of `bundle_folder`: the child `name` of `folder` is a directory whose
      canonical path differs from the folder's own, so the walk descends into it. */
  predicate Recurses(fs: Fs, folder: Path, name: string) {
    var c := Child(folder, name);
    && fs.kind(c).Directory?
    && fs.canon(c).Some? && fs.canon(folder).Some?
    && fs.canon(c) != fs.canon(folder)
  }

  /** The acyclicity precondition: the guarded walk from `folder` goes fewer than `k`
      levels deep.  A symbolic link to the folder itself is cut off by the guard; a link
      to an ancestor is not, and then no bound exists. */
  ghost predicate WalkBounded(fs: Fs, folder: Path, k: nat)
    decreases k
  {
    k > 0 &&
    forall i :: 0 <= i < |Names(fs, folder)| ==>
      Recurses(fs, folder, Names(fs, folder)[i]) ==> WalkBounded(fs, Child(folder, Names(fs, folder)[i]), k - 1)
  }

  /** `bundle_element` descends into every directory child of a source directory (there is
      no canonical-path guard at that level), each walk bounded by `k`. */
  ghost predicate ElementBounded(fs: Fs, source: Path, k: nat) {
    forall i :: 0 <= i < |Names(fs, source)| ==>
      fs.kind(Child(source, Names(fs, source)[i])).Directory? ==>
        WalkBounded(fs, Child(source, Names(fs, source)[i]), k)
  }

  /** What the operating system guarantees of a directory listing: no name twice, and
      never "", ".", ".." or a name holding '/'. */
  ghost predicate ProperListing(fs: Fs, dir: Path) {
    && (forall i, j :: 0 <= i < j < |Names(fs, dir)| ==> Names(fs, dir)[i] != Names(fs, dir)[j])
    && (forall i :: 0 <= i < |Names(fs, dir)| ==> ProperName(Names(fs, dir)[i]))
  }

  predicate ProperName(name: string) {
    name != "" && name != "." && name != ".." && '/' !in name
  }

  ghost predicate ProperListings(fs: Fs) {
    forall dir :: ProperListing(fs, dir)
  }

  /** The `i`-th entry of a proper listing is a proper name that no later entry repeats. */
  lemma ListingEntry(fs: Fs, dir: Path, i: nat)
    requires ProperListings(fs) && i < |Names(fs, dir)|
    ensures ProperName(Names(fs, dir)[i])
    ensures forall j :: i < j < |Names(fs, dir)| ==> Names(fs, dir)[j] != Names(fs, dir)[i]
  {
    assert ProperListing(fs, dir);
  }
}
