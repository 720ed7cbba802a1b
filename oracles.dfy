/**
  The world bev talks to but does not implement: the file system and the
  content store. Both are given as functions, so every operation of the
  model is deterministic in them.
 */
module Oracles {
  import opened Errors
  import opened Paths
  import opened Hash

  /** `TreeEntry`: one entry of a directory listing, from the file system or from git. */
  datatype TreeEntry = TreeEntry(name: string, isDir: bool, isSymlink: bool)

  /** What `stat` finds at a path, following symbolic links: nothing (a
      dangling link included), a directory, a regular file, or something else
      (a socket, a FIFO, a device). */
  datatype Kind = Absent | Directory | RegularFile | Special

  /** The file system. Paths are absolute, given as their parts below '/'. */
  datatype Disk = Disk(
    kind: Path -> Kind,
    // the contents of a regular file with surrounding whitespace removed
    readKey: Path -> Key,
    // `Path.iterdir` of a directory, with `is_dir()` and `is_symlink()` of each entry
    iterdir: Path -> seq<TreeEntry>,
    // `Path.glob('**/*')`: every descendant of a directory, relative to it, in walk order
    walk: Path -> seq<Path>
  )

  /** `Path.exists()`, which follows symbolic links. */
  predicate Exists(disk: Disk, p: Path) {
    disk.kind(p) != Absent
  }

  /** `load_key`: only a regular file can be opened and read; a missing path
      raises FileNotFoundError and a directory IsADirectoryError. */
  function LoadKey(disk: Disk, p: Path): (r: Result<Key>)
    ensures r.Ok? <==> disk.kind(p) == RegularFile
    ensures r.Ok? ==> r.value == disk.readKey(p)
    ensures !Exists(disk, p) ==> r == Err(FileNotFound)
    ensures disk.kind(p) == Directory ==> r == Err(IsADirectory)
  {
    match disk.kind(p)
    case RegularFile => Ok(disk.readKey(p))
    case Absent => Err(FileNotFound)
    case Directory => Err(IsADirectory)
    case Special => Err(Unreadable)
  }

  /** The content store (a `HashKeyStorage`). */
  datatype Store = Store(
    digestSize: nat,
    // `storage.read(load_tree, key, fetch=...)`: the decoded JSON tree, or None
    // when the key is missing (and cannot be fetched) or does not decode
    readTree: (Key, bool) -> Option<Listing>,
    // `storage.read(..., key, fetch=...)` handing back the stored file's path
    locate: (Key, bool) -> Option<Path>,
    // `storage.write(file).hex()`
    writeFile: Path -> Key,
    // `storage.write` of a serialised tree, as `tree_to_hash` does it
    writeTree: seq<(string, Key)> -> Key
  )
}
