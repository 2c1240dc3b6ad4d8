/**
 * The bundler's behaviour at its edges, stated as it is rather than as one might wish:
 * what the canonical-path guard does and does not stop, and one concrete run.
 */
module Scenarios {
  import opened Wrappers
  import opened Paths
  import opened Source
  import opened Timestamp
  import opened DestFs
  import opened Walk

  // ---------------------------------------------------------------------------
  // The canonical-path guard
  // ---------------------------------------------------------------------------

  /** /d, holding a file f and a link "self" back to /d: /d/self, /d/self/self, ... all
      read as directories, each canonicalising to /d. */
  predicate SelfChain(p: Path) {
    p.absolute && |p.comps| > 0 && p.comps[0] == "d" && forall i :: 1 <= i < |p.comps| ==> p.comps[i] == "self"
  }

  function SelfLinkFs(bytes: Content): Fs {
    Fs((p: Path) => if SelfChain(p) then Directory else if p == Path(true, ["d", "f"]) then RegularFile(bytes) else Other,
       (p: Path) => if SelfChain(p) then Some(["self", "f"]) else None,
       (p: Path) => if SelfChain(p) then Some(Path(true, ["d"])) else Some(p),
       {})
  }

  /** The guard cuts the self-link, so the walk of /d is one level deep. */
  lemma SelfLinkBounded(bytes: Content)
    ensures WalkBounded(SelfLinkFs(bytes), Path(true, ["d"]), 1)
  {
    var fs := SelfLinkFs(bytes);
    var dir := Path(true, ["d"]);
    assert Names(fs, dir) == ["self", "f"];
    assert Child(dir, "self") == Path(true, ["d", "self"]);
    assert SelfChain(Child(dir, "self"));
    assert !Recurses(fs, dir, "self");
    assert Child(dir, "f").comps[1] == "f";
    assert !SelfChain(Child(dir, "f"));
  }

  /** The entry "self" of /d is a directory canonicalising to /d: it is skipped. */
  lemma SelfLinkSkipsLink(bytes: Content, root: Path, d1: Dest)
    ensures FolderChild(SelfLinkFs(bytes), Path(true, ["d"]), BuildFullBackupPath(Path(true, ["d"]), root), root, "self", d1, 1)
         == Step(Ok(()), d1)
  {
    var dir := Path(true, ["d"]);
    assert Child(dir, "self") == Path(true, ["d", "self"]);
    assert SelfChain(Child(dir, "self")) && SelfChain(dir);
  }

  /** The entry "f" of /d is a regular file: it is copied into the mirror of /d. */
  lemma SelfLinkCopiesFile(bytes: Content, root: Path)
    ensures var full := BuildFullBackupPath(Path(true, ["d"]), root);
      var d1 := Dest(Prefixes(full), map[]);
      FolderChild(SelfLinkFs(bytes), Path(true, ["d"]), full, root, "f", d1, 1)
        == Step(Ok(()), d1.(files := map[BuildFullBackupPath(Path(true, ["d", "f"]), root) := bytes]))
  {
    var fs := SelfLinkFs(bytes);
    var dir := Path(true, ["d"]);
    var c := Child(dir, "f");
    assert c == Path(true, ["d", "f"]);
    assert c.comps[1] == "f" && !SelfChain(c);
    assert fs.kind(c) == RegularFile(bytes) && FileName(c) == Some("f");
    var full := BuildFullBackupPath(dir, root);
    var target := Child(full, "f");
    assert PrefixAt(target, |target.comps| - 1) == full;
    assert IsPrefix(full, full) && !IsPrefix(target, full);
    assert Writable(Dest(Prefixes(full), map[]), target);
    MapChild(dir, "f", root);
  }

  /** Bundling /d mirrors /d and its file and nothing else, although the link makes the
      path space infinite. */
  lemma SelfLinkSkipped(bytes: Content, root: Path)
    ensures WalkBounded(SelfLinkFs(bytes), Path(true, ["d"]), 1)
    ensures BundleFolder(SelfLinkFs(bytes), Path(true, ["d"]), root, Dest({}, map[]), 1)
         == Step(Ok(()), Dest(Prefixes(BuildFullBackupPath(Path(true, ["d"]), root)),
                              map[BuildFullBackupPath(Path(true, ["d", "f"]), root) := bytes]))
  {
    var fs := SelfLinkFs(bytes);
    var dir := Path(true, ["d"]);
    SelfLinkBounded(bytes);
    var full := BuildFullBackupPath(dir, root);
    var d1 := Dest(Prefixes(full), map[]);
    SelfLinkSkipsLink(bytes, root, d1);
    SelfLinkCopiesFile(bytes, root);
    var d2 := d1.(files := map[BuildFullBackupPath(Path(true, ["d", "f"]), root) := bytes]);
    assert Names(fs, dir) == ["self", "f"];
    assert IsPrefix(full, full);
    assert CreateFolderInBackupStructure(dir, root, Dest({}, map[])) == Step(Ok(full), d1) by {
      assert !Blocked(Dest({}, map[]), full);
    }
    assert FolderLoop(fs, dir, full, root, 2, d2, 1) == Step(Ok(()), d2);
    assert FolderLoop(fs, dir, full, root, 1, d1, 1) == Step(Ok(()), d2);
  }

  /** The alternating paths /d, /d/up, /d/up/d, ... of a tree where /d holds a link "up"
      to its parent "/". */
  predicate Alternating(cs: seq<string>) {
    forall i :: 0 <= i < |cs| ==> cs[i] == if i % 2 == 0 then "d" else "up"
  }

  function AncestorLinkFs(): Fs {
    Fs((p: Path) => if p.absolute && Alternating(p.comps) then Directory else Other,
       (p: Path) => if p.absolute && Alternating(p.comps) then Some(if |p.comps| % 2 == 0 then ["d"] else ["up"]) else None,
       (p: Path) => if p.absolute && Alternating(p.comps) then Some(Path(true, if |p.comps| % 2 == 1 then ["d"] else [])) else None,
       {})
  }

  /** The guard does not stop a link to an ancestor: the canonical path of /d/up is "/",
      not /d, so the walk descends, and keeps descending; no depth bound exists. */
  lemma {:induction false} AncestorLinkUnbounded(p: Path, k: nat)
    requires p.absolute && |p.comps| > 0 && Alternating(p.comps)
    ensures !WalkBounded(AncestorLinkFs(), p, k)
    decreases k
  {
    if k > 0 {
      var fs := AncestorLinkFs();
      var name := if |p.comps| % 2 == 0 then "d" else "up";
      var c := Child(p, name);
      assert Names(fs, p) == [name];
      assert Alternating(c.comps) by {
        forall i | 0 <= i < |c.comps| ensures c.comps[i] == if i % 2 == 0 then "d" else "up" {
          if i < |p.comps| {
            assert c.comps[i] == p.comps[i];
          }
        }
      }
      assert Recurses(fs, p, Names(fs, p)[0]);
      AncestorLinkUnbounded(c, k - 1);
    }
  }

  // ---------------------------------------------------------------------------
  // A concrete run
  // ---------------------------------------------------------------------------

  const Ssh := Path(true, ["home", "matty", ".ssh"])
  const Base := Path(false, [".", "system-backup"])
  const NewYear := DateTime(2024, 1, 1, 0, 0, 0)
  const SshRoot := Path(false, [".", "system-backup-2024-01-01_00-00-00"])
  const SshMirror := Path(false, [".", "system-backup-2024-01-01_00-00-00", "home", "matty", ".ssh"])
  const SshNames := ["id_rsa", "agent.sock", "known_hosts", "id_rsa.pub"]

  function SshFs(key: Content, pub: Content, known: Content): Fs {
    Fs((p: Path) => if p == Ssh then Directory
            else if p == Child(Ssh, "id_rsa") then RegularFile(key)
            else if p == Child(Ssh, "id_rsa.pub") then RegularFile(pub)
            else if p == Child(Ssh, "known_hosts") then RegularFile(known)
            else Other,
       (p: Path) => if p == Ssh then Some(SshNames) else None,
       (p: Path) => Some(p),
       {Child(Ssh, "known_hosts")})
  }

  lemma NewYearText()
    ensures TimestampText(NewYear) == "2024-01-01_00-00-00"
  {
    assert YearText(2024) == "2024";
  }

  /** The staging root for the run below. */
  lemma SshStagingRoot()
    ensures GenerateBundledName(Base, NewYear) == SshRoot
  {
    NewYearText();
    var suffix := "-" + TimestampText(NewYear);
    assert Base.comps[..1] == ["."];
    assert Base.comps[1] + suffix == "system-backup-2024-01-01_00-00-00";
  }

  /** The source's mirror under the staging root. */
  lemma SshMirrorPath()
    ensures BuildFullBackupPath(Ssh, SshRoot) == SshMirror
  {
    assert SshRoot.comps + Ssh.comps == SshMirror.comps;
  }

  /** Each slot directly below the mirror can take a file once the mirror exists. */
  lemma SshSlotWritable(name: string, files: map<Path, Content>)
    ensures Writable(Dest(Prefixes(SshMirror), files), Child(SshMirror, name))
  {
    assert PrefixAt(Child(SshMirror, name), 5) == SshMirror;
    assert IsPrefix(SshMirror, SshMirror);
    assert !IsPrefix(Child(SshMirror, name), SshMirror);
  }

  /** The files of .ssh: distinct paths below .ssh, none of them .ssh itself. */
  lemma SshChildren(n: string)
    ensures Child(Ssh, n) != Ssh
    ensures n != "id_rsa" ==> Child(Ssh, n) != Child(Ssh, "id_rsa")
    ensures n != "id_rsa.pub" ==> Child(Ssh, n) != Child(Ssh, "id_rsa.pub")
    ensures n != "known_hosts" ==> Child(Ssh, n) != Child(Ssh, "known_hosts")
    ensures FileName(Child(Ssh, n)) == if n == ".." then None else Some(n)
  {
    assert |Child(Ssh, n).comps| == 4;
    assert Child(Ssh, n).comps[3] == n;
  }

  /** A readable key of .ssh is copied into an empty slot of the mirror. */
  lemma SshCopiesKey(key: Content, pub: Content, known: Content, name: string, content: Content, files: map<Path, Content>)
    requires (name == "id_rsa" && content == key) || (name == "id_rsa.pub" && content == pub)
    ensures var d := Dest(Prefixes(SshMirror), files);
      CopyFileFromFolder(SshFs(key, pub, known), Child(Ssh, name), SshMirror, d)
        == Step(Ok(()), d.(files := files[Child(SshMirror, name) := content]))
  {
    SshChildren(name);
    SshSlotWritable(name, files);
  }

  /** The socket is skipped and the unreadable known_hosts is left out. */
  lemma SshSkips(key: Content, pub: Content, known: Content, d: Dest)
    ensures CopyFileFromFolder(SshFs(key, pub, known), Child(Ssh, "agent.sock"), SshMirror, d) == Step(Ok(()), d)
    ensures CopyFileFromFolder(SshFs(key, pub, known), Child(Ssh, "known_hosts"), SshMirror, d) == Step(Ok(()), d)
  {
    SshChildren("agent.sock");
    SshChildren("known_hosts");
  }

  /** The loop over the listing of .ssh, from the created mirror on. */
  lemma SshLoop(key: Content, pub: Content, known: Content)
    ensures ElementBounded(SshFs(key, pub, known), Ssh, 0)
    ensures ElementLoop(SshFs(key, pub, known), Ssh, SshMirror, SshRoot, 0, Dest(Prefixes(SshMirror), map[]), 0)
         == Step(Ok(()), Dest(Prefixes(SshMirror), map[Child(SshMirror, "id_rsa") := key, Child(SshMirror, "id_rsa.pub") := pub]))
  {
    var fs := SshFs(key, pub, known);
    assert Names(fs, Ssh) == SshNames;
    forall n ensures !fs.kind(Child(Ssh, n)).Directory? {
      SshChildren(n);
    }
    assert ElementBounded(fs, Ssh, 0);
    var d0 := Dest(Prefixes(SshMirror), map[]);
    var d1 := d0.(files := map[Child(SshMirror, "id_rsa") := key]);
    var d2 := d0.(files := map[Child(SshMirror, "id_rsa") := key, Child(SshMirror, "id_rsa.pub") := pub]);
    SshCopiesKey(key, pub, known, "id_rsa", key, map[]);
    SshSkips(key, pub, known, d1);
    SshCopiesKey(key, pub, known, "id_rsa.pub", pub, d1.files);
    assert d1.files[Child(SshMirror, "id_rsa.pub") := pub] == d2.files;
    assert ElementLoop(fs, Ssh, SshMirror, SshRoot, 4, d2, 0) == Step(Ok(()), d2);
    assert ElementLoop(fs, Ssh, SshMirror, SshRoot, 3, d1, 0) == Step(Ok(()), d2);
    assert ElementLoop(fs, Ssh, SshMirror, SshRoot, 2, d1, 0) == Step(Ok(()), d2);
    assert ElementLoop(fs, Ssh, SshMirror, SshRoot, 1, d1, 0) == Step(Ok(()), d2);
  }

  /** Bundling /home/matty/.ssh under ./system-backup at 2024-01-01 00:00:00 into an empty
      destination returns ./system-backup-2024-01-01_00-00-00 and leaves exactly id_rsa
      and id_rsa.pub under .../home/matty/.ssh; the socket is skipped and the unreadable
      known_hosts is left out without failing the run. */
  lemma SshScenario(key: Content, pub: Content, known: Content)
    ensures BundlePaths(SshFs(key, pub, known), Ssh, Base, NewYear, Dest({}, map[]), 0)
         == Step(Ok(SshRoot), Dest(Prefixes(SshMirror), map[Child(SshMirror, "id_rsa") := key, Child(SshMirror, "id_rsa.pub") := pub]))
  {
    var fs := SshFs(key, pub, known);
    var d0 := Dest(Prefixes(SshMirror), map[]);
    var d2 := d0.(files := map[Child(SshMirror, "id_rsa") := key, Child(SshMirror, "id_rsa.pub") := pub]);
    SshStagingRoot();
    SshMirrorPath();
    SshLoop(key, pub, known);
    assert CreateDirAll(Dest({}, map[]), SshMirror) == Step(Ok(()), d0) by {
      assert !Blocked(Dest({}, map[]), SshMirror);
    }
    assert BundleElement(fs, Ssh, SshMirror, SshRoot, d0, 0) == Step(Ok(()), d2);
  }
}
