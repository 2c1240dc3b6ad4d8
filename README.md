# Bundling engine of system-backup, in Dafny

`system-backup` is a personal backup tool. Its bundling engine (`src/bundler.rs`)
takes a source path, which may be a file or a directory, and a backup base. It
computes a staging root named `{base}-{YYYY-MM-DD_HH-MM-SS}` and rebuilds the source
tree below that root. To do so it:

- strips the root off every source path and joins what is left onto the staging root;
- walks directories one level at a time, with a canonical-path guard against
  self-reference;
- copies regular files;
- skips sockets, devices and dangling links;
- swallows the failure of a single copy, but propagates failures that concern
  structure.

This project models that engine and proves properties of the model.

## Layout

- **`paths.dfy`**
  - A path is an "absolute" flag plus a sequence of components.
  - `BuildFullBackupPath` is the path mapping `map(source, root)`. After it come
    `Path::file_name` and `Path::parent`, then the displayed form of a path, then the
    lemmas about the mapping.
- **`timestamp.dfy`**
  - The clock reading is passed in as a `DateTime` value.
  - Formats it with chrono's `%Y-%m-%d_%H-%M-%S`, and proves the format is inverted
    by a parser.
  - `generate_bundled_name`.
- **`source.dfy`**
  - The source filesystem is an immutable value. For every path it gives:
    - the kind of entry: `RegularFile(content)`, `Directory` or `Other`, as seen by
      `is_file`/`is_dir`, which follow links;
    - its listing, in the operating system's order, never assumed sorted;
    - its canonical path.
  - It also gives the set of files `fs::copy` cannot read.
  - Predicates:
    - `WalkBounded` is the acyclicity precondition: every walk the guard lets
      through ends within `k` levels.
    - `ProperListings` states the operating system's promise about listings.
- **`destfs.dfy`**
  - The destination as a value: a set of directories and a map from file paths to
    contents.
  - Its invariant `Valid`.
  - `fs::create_dir_all`, which fails with nothing created when an ancestor is a
    file.
  - `fs::copy`, which fails when the source cannot be read, when the parent is not a
    directory, or when the target is a directory.
- **`staging.dfy`**: the destination as a class, `StagingStore`, whose methods update
  its fields step by step. Each method is proved to leave the state that `destfs.dfy`
  describes.
- **`walk.dfy`**
  - One pure function per Rust function, in the Rust function's own terms: what it
    returns and what the destination looks like afterwards.
  - `?` returns the first error and keeps any partial effect.
  - The two loops are functions over the index of the listing.
- **`bundler.dfy`**
  - The engine as the Rust code runs it: methods over a `StagingStore`, with `while`
    loops over the listings and recursion into sub-directories.
  - Each method is proved against the function of the same name in `walk.dfy`.
- **`frame.dfy`**: where the engine writes. Outside the staging root, at most the
  root's own ancestors are created as directories. Every other directory made and
  every file written lies below the root, on every path including errors.
- **`mirror.dfy`**: tree fidelity.
  - After a successful run, every readable regular file `x` that the walk reaches
    sits at `map(x, root)` with its content, unless a directory stood there before the run; the walk never creates a directory at such a path.
  - Every directory the walk enters exists at `map(dir, root)`, however deep it lies.
  - A single-file source lands at `map(src, map(src, root))`.
- **`scenarios.dfy`**
  - What the guard stops: a self-link. What it does not stop: a link to an ancestor.
  - A concrete run over `/home/matty/.ssh`.

### Quirks of the code, which the model keeps

Three behaviours of the code are easy to mistake for what a backup tool would be expected to do. The model keeps them as the code has them:

- **Relative sources.** One would expect a relative source to be rejected before anything
  is created. The code runs `create_dir_all` on the mirrored path before it
  checks (`src/bundler.rs:19-23`). So a relative source fails, but its mirror exists
  by then.
- **Symlink cycles.** The canonical-path guard looks like a protection against symlink
  cycles. The code compares a child's canonical path only with the canonical path of
  the directory being walked (`src/bundler.rs:75`). A link to an ancestor gets past
  the guard (`Scenarios.AncestorLinkUnbounded`).
- **Single-file sources.** One would expect a single-file source to be mapped once. The
  code maps it twice:
  - `bundle_paths` first creates `map(src, root)` as a directory;
  - `bundle_file` then maps the source again, below that directory
    (`src/bundler.rs:16-19, 96`).

## Model

| member | source | states |
|---|---|---|
| Paths.BuildFullBackupPath | src/bundler.rs:171-183 | the mapped path has the backup folder's root flag; its components are the backup folder's components followed by every component of the source, whose root has been dropped |
| Paths.MappedPathRoundTrip | src/bundler.rs:171-183 | the mapped path lies under the backup folder; stripping the backup folder off it gives back the root-stripped source |
| Paths.MapPreservesPrefix | src/bundler.rs:171-183 | for two sources with the same root flag, the second extends the first if and only if its mapped path extends the first's mapped path |
| Paths.MapForgetsRoot | src/bundler.rs:178-180 | an absolute source and its relative form map to the same destination; for the relative form, the `unwrap_or` fallback applies |
| Paths.MapChild | src/bundler.rs:171-183 | mapping a child is the same as descending one level in the mapped parent |
| Timestamp.TimestampText | src/bundler.rs:189 | for years 0 to 9999 the timestamp is 19 characters long: digits, with `-` at positions 4, 7, 13 and 16 and `_` at position 10 |
| Timestamp.ParseStamp | src/bundler.rs:189 | reads a timestamp back; it succeeds on exactly the texts with that 19-character layout |
| Timestamp.StampRoundTrip | src/bundler.rs:189 | reading back the timestamp of a valid clock reading gives that reading |
| Timestamp.ParseThenFormat | src/bundler.rs:189 | a text that reads back as a valid clock reading is that reading's timestamp, so formatting is injective |
| Timestamp.GenerateBundledName | src/bundler.rs:185-193 | the name displays as the base's display, then `-`, then the timestamp; it keeps the base's root flag and has at least one component |
| DestFs.CreateDirAll | src/bundler.rs:166 | `create_dir_all` succeeds exactly when no prefix of the target is a file. On success, the target and all its prefixes become directories and nothing else changes. On failure, nothing changes. The store invariant is kept |
| DestFs.Copy | src/bundler.rs:139 | `fs::copy` writes or overwrites the target with the content exactly when the source is readable, the target's parent is a directory and the target is not a directory; otherwise nothing changes |
| Staging.StagingStore.CreateDirAll | src/bundler.rs:166 | the top-down loop over the target's prefixes returns the same outcome, and leaves the same store, as `DestFs.CreateDirAll` |
| Staging.StagingStore.Copy | src/bundler.rs:139-146 | reports success exactly when the copy can happen, and leaves the store as `DestFs.Copy` does |
| Walk.CopyFileFromFolder | src/bundler.rs:112-149 | a directory is an error with nothing changed; an `Other` entry is Ok with nothing changed; an unreadable file or a path without a final component leaves the destination unchanged; a readable regular file with a writable slot sets `folder/name` to its content, overwriting any earlier content; a copy the destination refuses (the slot is a directory, or its parent is not one) is Ok with nothing changed; the result is Ok exactly when the input is not a directory; no directory is created |
| Walk.CreateFolderInBackupStructure | src/bundler.rs:151-169 | succeeds exactly when `create_dir_all` of the mapped path is not blocked. On success it returns `BuildFullBackupPath(folder, backup)`, and that path and all its prefixes are added as directories. On failure it returns Io with nothing changed |
| Walk.BundleFolder | src/bundler.rs:61-86 | a non-directory is a NotAFolder error with nothing changed; after success, the folder's mapped path is a directory; the depth-0 entry WalkDir yields for the folder itself is an Io error when the folder cannot be canonicalised and is otherwise skipped, so an empty folder only gets its mapped path and prefixes created; the destination only grows and its invariant is kept |
| Walk.FolderLoop | src/bundler.rs:72-83 | the loop over the WalkDir entries keeps the folder's mapped path a directory and keeps the store invariant |
| Walk.FolderChild | src/bundler.rs:74-82 | a directory child whose canonical path equals the folder's canonical path is skipped with nothing changed |
| Walk.BundleFile | src/bundler.rs:88-110 | a source that is not a regular file is a NotAFile error with nothing changed; the destination only grows and its invariant is kept |
| Walk.BundleElement | src/bundler.rs:34-59 | a non-directory source goes to `bundle_file`; the destination only grows and its invariant is kept |
| Walk.ElementLoop | src/bundler.rs:45-52 | the loop over `read_dir` only grows the destination and keeps its invariant |
| Walk.ElementChild | src/bundler.rs:46-51 | one child of the `read_dir` loop: a directory is handed, with no guard, to `bundle_folder` against the root, and anything else is copied straight into the destination |
| Walk.BundlePaths | src/bundler.rs:8-32 | success returns exactly the timestamped root, which lies strictly above the source's mirror whenever the source has at least one component, and happens only for an absolute source. A relative source always fails. Unless creation was blocked, that failure is NotAbsolute, and by then the mirrored path and its prefixes are directories. A blocked creation is an Io error with nothing changed |
| Bundler.CopyFileFromFolder | src/bundler.rs:112-149 | returns what `Walk.CopyFileFromFolder` returns, and leaves the store as it says |
| Bundler.CreateFolderInBackupStructure | src/bundler.rs:151-169 | returns what `Walk.CreateFolderInBackupStructure` returns, and leaves the store as it says |
| Bundler.BundleFolder | src/bundler.rs:61-86 | the WalkDir loop and its recursion return what `Walk.BundleFolder` returns, and leave the store as it says |
| Bundler.FolderEntries | src/bundler.rs:72-83 | the WalkDir loop, stopped by the first error, returns what `Walk.FolderLoop` returns from the first entry on, and leaves the store as it says |
| Bundler.FolderChild | src/bundler.rs:74-82 | one WalkDir entry, guard and recursion included, returns what `Walk.FolderChild` returns, and leaves the store as it says |
| Bundler.BundleFile | src/bundler.rs:88-110 | returns what `Walk.BundleFile` returns, and leaves the store as it says |
| Bundler.BundleElement | src/bundler.rs:34-59 | the `read_dir` loop returns what `Walk.BundleElement` returns, and leaves the store as it says |
| Bundler.BundlePaths | src/bundler.rs:8-32 | returns what `Walk.BundlePaths` returns, and leaves the store as it says |
| Frame.CreateDirAllConfined | src/bundler.rs:166 | every directory `create_dir_all` creates is an ancestor of its target, so it lies on the way to, or below, any given ancestor of the target; no file changes |
| Frame.CopyConfined | src/bundler.rs:127-146 | copying into a folder writes at most the file `folder/name` |
| Frame.FolderConfined | src/bundler.rs:61-86 | `bundle_folder` creates directories only on the way to or below the folder's mapped path, and writes files only strictly below it |
| Frame.LoopConfined | src/bundler.rs:72-83 | the same for the loop over the folder's entries |
| Frame.ChildConfined | src/bundler.rs:74-82 | one entry of the loop writes files only at or below its own slot `full/name` |
| Frame.LoopUntouched | src/bundler.rs:72-83 | later entries of the loop leave every file at or below an earlier entry's slot unchanged |
| Frame.BundleFileConfined | src/bundler.rs:88-110 | `bundle_file` stays strictly within its destination |
| Frame.BundleElementConfined | src/bundler.rs:34-59 | `bundle_element` stays within the source's mapped path |
| Frame.ElementLoopConfined | src/bundler.rs:45-52 | the `read_dir` loop stays within the source's mapped path |
| Frame.ElementChildConfined | src/bundler.rs:46-51 | one child of the `read_dir` loop stays within the source's mapped path and writes files only at or below its own slot `dest/name` |
| Frame.MappedFileTarget | src/bundler.rs:88-110 | a file source's mapped path has a parent, is that parent's child by the file's own name, and lies strictly below the destination |
| Frame.BundlePathsConfined | src/bundler.rs:8-32 | on every outcome, errors included, nothing outside the timestamped root is created or modified, apart from the root's own ancestors created as directories |
| Mirror.CopyLands | src/bundler.rs:127-146 | a readable regular file copied into an existing folder is at `folder/name` with its content afterwards, unless a directory already sat there |
| Mirror.FolderMirrors | src/bundler.rs:61-86 | after `bundle_folder` succeeds, the folder exists at its mapped path, every readable regular file below it that the walk reaches is at that file's mapped path with its content unless a directory stood there before the call, and every sub-directory the guard lets through is mirrored the same way, however deep, always against the same root |
| Mirror.LoopMirrors | src/bundler.rs:72-83 | after the loop succeeds from entry `i` on, each entry `j` from `i` on is mirrored, measured from the store at entry `i`: an earlier entry never makes a directory in a later entry's slot, and a later entry never disturbs an earlier one |
| Mirror.ChildMirrors | src/bundler.rs:74-82 | after one entry succeeds, that entry is mirrored: as a file with its content at its mapped path unless a directory stood there before the entry, or as a mirrored folder if the guard lets the walk in |
| Mirror.ElementLoopUntouched | src/bundler.rs:45-52 | later children of the `read_dir` loop leave every file at or below an earlier child's slot unchanged |
| Mirror.ElementLoopMirrors | src/bundler.rs:45-52 | after the `read_dir` loop succeeds from child `i` on, each child `j` from `i` on is mirrored. A regular file is at its mapped path with its content, unless a directory stood there at child `i`. A directory is mirrored at its mapped path through `bundle_folder`, not under the parent's destination |
| Mirror.ElementChildMirrors | src/bundler.rs:46-51 | after one child of the `read_dir` loop succeeds, that child is mirrored |
| Mirror.BundleFileLands | src/bundler.rs:88-110 | after `bundle_file` of a readable regular file succeeds, the parent of its mapped path exists with all its prefixes and the file is at the mapped path with its content, unless a directory stood there before the call |
| Mirror.BundlePathsMirrorsDirectory | src/bundler.rs:44-53 | a successful run over a directory source leaves the source's mapped path as a directory with every child mirrored from the root; a file is missing only where a directory stood at its mapped path before the run |
| Mirror.BundlePathsMirrorsFileTwice | src/bundler.rs:88-110 | a successful run over a readable single-file source creates `map(src, root)` and the parent of `map(src, map(src, root))` with all their prefixes, and the file is at `map(src, map(src, root))` with its content unless a directory stood there before the run, which never holds for a run from an empty store |
| Scenarios.SelfLinkSkipped | src/bundler.rs:72-79 | a directory holding a link to itself is walked one level deep; only the directory and its file are mirrored |
| Scenarios.AncestorLinkUnbounded | src/bundler.rs:75 | when a directory links to its parent, the guard lets the walk through; no depth bound exists |
| Scenarios.SshScenario | src/bundler.rs:8-32 | bundling `/home/matty/.ssh` under `./system-backup` at 2024-01-01 00:00:00 returns `./system-backup-2024-01-01_00-00-00`. Exactly the two readable keys are copied under `.../home/matty/.ssh`: a socket is skipped, and an unreadable file is left out while the run still succeeds |

## Left out

- **Other source files.** `src/main.rs`, `src/archiver.rs` and `src/encryption.rs` are not part of this model:
  - `main.rs` is the entry point, and its own flat copy loop is not wired to the bundler;
  - `archiver.rs` wraps the tar crate;
  - `encryption.rs` wraps the age crate and streaming I/O.
- **The clock.** Reading `Local::now` is not modelled. The reading is a parameter, and only its formatting is modelled.
- **Diagnostics.** `println!` and `eprintln!` output is not modelled.
- **The operating system's facts.** Symlink resolution (`canonicalize`), listing order and which files cannot be read are given as part of the source value:
  - `canonicalize` is a given function on paths;
  - a listing is an arbitrary sequence, never sorted;
  - unreadable files are a set of paths.
- **Errors.** The propagated errors of `read_dir` and of `canonicalize` are one `Io` outcome. Error messages are not modelled.
- **Errors of single directory entries.** The `entry?` of `bundle_element` and the `file?` of `bundle_folder` are not modelled. A listing either succeeds whole or fails before any child is handled. So a listing that fails after some children were copied, keeping their copies, has no model run.
- **An immutable source.** The source tree is a snapshot, separate from the destination. A staging root inside the source tree, which would let the walk see its own output, is not modelled.
- **Path spelling.** Path components are taken as given:
  - `.` and `..` are not normalised;
  - a trailing separator on the backup base is not kept in its display.
- **Date formatting.** Outside years 0 to 9999, the model follows chrono's sign-and-padding rule for `%Y`. The lemmas about the 19-character layout and its round trip are stated for years 0 to 9999 only.
- **`create_dir_all`.** Modelled top-down, with all-or-nothing failure when an ancestor is a file. Failures that are not about the filesystem's shape, such as permissions or a full disk, are not modelled.
- **Scope of the fidelity lemmas.**
  - Mirror.FolderMirrors, Mirror.LoopMirrors, Mirror.ChildMirrors, Mirror.ElementLoopMirrors, Mirror.BundleFileLands, Mirror.BundlePathsMirrorsDirectory and Mirror.BundlePathsMirrorsFileTwice: Where a directory already stood at a file's mapped path before the run, `fs::copy` is refused there and the file is missing; the walk itself never creates a directory at such a path, so from a store with no directory there the file is present with its content.
  - Mirror.BundlePathsMirrorsDirectory: proved under the listing promise `ProperListings`. It does not state that no extra files appear below the root; `Frame.BundlePathsConfined` states only that nothing is written outside it.
- **Deep walks.** Walk.BundleFolder, Walk.FolderLoop, Walk.FolderChild and their methods in `Bundler` are defined only for folders whose guarded walk is bounded (`WalkBounded`). Walk.BundleElement, Walk.ElementLoop and Bundler.BundleElement need the same bound for each directory child of a directory source (`ElementBounded`). Walk.BundlePaths and Bundler.BundlePaths need it only for an absolute directory source: a relative or non-directory source is modelled with no bound. A walk that never ends, which the source allows through an ancestor link, has no model run; `Scenarios.AncestorLinkUnbounded` shows that no bound exists for it.
