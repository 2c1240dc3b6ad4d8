/**
 * The destination filesystem as the mutable store the bundler writes into.  Each
 * method changes the store step by step, as the system call does, and is proved
 * to leave it in the state the value-level operation of `DestFs` describes.
 */
module Staging {
  import opened Wrappers
  import opened Paths
  import opened Source
  import DestFs

  class StagingStore {
    var dirs: set<Path>
    var files: map<Path, Content>

    function State(): DestFs.Dest
      reads this
    {
      DestFs.Dest(dirs, files)
    }

    ghost predicate Valid()
      reads this
    {
      DestFs.Valid(State())
    }

    /** An empty destination. */
    constructor ()
      ensures Valid() && dirs == {} && files == map[]
    {
      dirs := {};
      files := map[];
    }

    /** `fs::create_dir_all(p)`: walks down from the root, making each missing ancestor
        in turn, and stops at the first one that is a regular file. */
    method CreateDirAll(p: Path) returns (ok: bool)
      requires Valid()
      modifies this
      ensures Valid()
      ensures DestFs.Step(if ok then Ok(()) else Err(DestFs.Io), State())
           == DestFs.CreateDirAll(old(State()), p)
    {
      var i := 0;
      while i <= |p.comps|
        invariant 0 <= i <= |p.comps| + 1
        invariant dirs == old(dirs) + (set j | 0 <= j < i :: PrefixAt(p, j))
        invariant files == old(files)
        invariant forall j :: 0 <= j < i ==> PrefixAt(p, j) !in files
      {
        var q := PrefixAt(p, i);
        if q in files {
          // q's ancestors were directories already: nothing was actually created.
          assert forall j :: 0 <= j < i ==> PrefixAt(p, j) == PrefixAt(PrefixAt(q, i - 1), j);
          assert DestFs.Blocked(old(State()), p);
          assert dirs == old(dirs);
          return false;
        }
        dirs := dirs + {q};
        i := i + 1;
      }
      assert (set j | 0 <= j < i :: PrefixAt(p, j)) == Prefixes(p);
      assert !DestFs.Blocked(old(State()), p);
      return true;
    }

    /** `fs::copy(file, target)` given the file's content and whether it can be read. */
    method Copy(target: Path, content: Content, readable: bool) returns (ok: bool)
      requires Valid()
      modifies this
      ensures Valid()
      ensures ok <==> readable && DestFs.Writable(old(State()), target)
      ensures State() == DestFs.Copy(old(State()), target, content, readable)
    {
      ok := readable && |target.comps| > 0 && PrefixAt(target, |target.comps| - 1) in dirs && target !in dirs;
      if ok {
        files := files[target := content];
      }
    }
  }
}
