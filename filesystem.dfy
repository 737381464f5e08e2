/**
 * `FileStore` (src/store/filesystem.rs): objects are files named
 * `<root_dir>/<filename>`. The file system is a `Disk` holding file contents
 * by path, with injected I/O errors for chosen paths.
 */
module FileSystem {
  import opened Wrappers
  import opened Bytes
  import opened StoreInterface

  /** The error `tokio::fs::read` reports for a path with no file. */
  const NOT_FOUND: IoError := IoError(NotFound, "No such file or directory")

  /** `tokio::fs::read(path)`. */
  function ReadFile(files: map<string, seq<uint8>>, readFaults: map<string, IoError>, path: string)
    : (r: Result<seq<uint8>, IoError>)
    ensures path !in readFaults ==> (r.Ok? <==> path in files)
  {
    if path in readFaults then Err(readFaults[path])
    else if path in files then Ok(files[path])
    else Err(NOT_FOUND)
  }

  /** The files after `tokio::fs::write(path, content)`: overwritten, or unchanged when the write fails. */
  function WriteFile(files: map<string, seq<uint8>>, writeFaults: map<string, IoError>, path: string, content: seq<uint8>)
    : (m: map<string, seq<uint8>>)
    ensures path !in writeFaults ==> path in m && m[path] == content
    ensures forall p | p != path :: (p in m <==> p in files) && (p in m ==> m[p] == files[p])
  {
    if path in writeFaults then files else files[path := content]
  }

  class Disk {
    var files: map<string, seq<uint8>>
    const readFaults: map<string, IoError>
    const writeFaults: map<string, IoError>

    constructor (files: map<string, seq<uint8>>, readFaults: map<string, IoError>, writeFaults: map<string, IoError>)
      ensures this.files == files && this.readFaults == readFaults && this.writeFaults == writeFaults
    {
      this.files := files;
      this.readFaults := readFaults;
      this.writeFaults := writeFaults;
    }

    method Write(path: string, content: seq<uint8>) returns (r: Result<(), IoError>)
      modifies this
      ensures r == (if path in writeFaults then Err(writeFaults[path]) else Ok(()))
      ensures files == WriteFile(old(files), writeFaults, path, content)
    {
      if path in writeFaults {
        r := Err(writeFaults[path]);
      } else {
        files := files[path := content];
        r := Ok(());
      }
    }
  }

  /**
   * How `get_object` classifies a read: content is `Ok(Some(content))`,
   * `NotFound` is absence (`Ok(None)`), any other error is `Err(Io(e))`.
   */
  function ClassifyRead(read: Result<seq<uint8>, IoError>): (r: Result<Option<seq<uint8>>, StoreError>)
    ensures read.Ok? <==> r.Ok? && r.value.Some?
    ensures read.Ok? ==> r.value.value == read.value
    ensures r == Ok(None) <==> read.Err? && read.error.kind == NotFound
    ensures r.Err? <==> read.Err? && read.error.kind != NotFound
    ensures r.Err? ==> r.error == Io(read.error)
  {
    match read
    case Ok(content) => Ok(Some(content))
    case Err(e) => if e.kind == NotFound then Ok(None) else Err(Io(e))
  }

  /** `FileStore::new`: the store exists only when `create_dir_all(root_dir)` succeeded, whose error it returns otherwise. */
  function New(rootDir: string, createDirAll: Result<(), IoError>): (r: Result<FileStore, IoError>)
    ensures r.Ok? <==> createDirAll.Ok?
    ensures r.Ok? ==> r.value.rootDir == rootDir
    ensures r.Err? ==> r.error == createDirAll.error
  {
    match createDirAll
    case Ok(_) => Ok(FileStore(rootDir))
    case Err(e) => Err(e)
  }

  datatype FileStore = FileStore(rootDir: string) {

    /** `format!("{}/{}", root_dir, filename)`: the root, one separator, then the filename. */
    function PathOf(filename: string): (path: string)
      ensures |path| == |rootDir| + 1 + |filename|
      ensures path[..|rootDir|] == rootDir && path[|rootDir|] == '/' && path[|rootDir| + 1..] == filename
    {
      var path := rootDir + "/" + filename;
      assert path[..|rootDir|] == rootDir && path[|rootDir| + 1..] == filename;
      path
    }

    /**
     * `get_object` against the files of the disk: the file's bytes, absence
     * when it does not exist, and `Err(Io(e))` for any other read error.
     */
    function GetObject(files: map<string, seq<uint8>>, readFaults: map<string, IoError>, filename: string)
      : (r: Result<Option<seq<uint8>>, StoreError>)
      ensures var path := PathOf(filename);
        && (path !in readFaults ==> r == Ok(if path in files then Some(files[path]) else None))
        && (path in readFaults && readFaults[path].kind != NotFound ==> r == Err(Io(readFaults[path])))
        && (path in readFaults && readFaults[path].kind == NotFound ==> r == Ok(None))
    {
      ClassifyRead(ReadFile(files, readFaults, PathOf(filename)))
    }

    /** Writes the whole content at the file's path; a write error is `Err(Io(e))` and changes nothing. */
    method PutObject(disk: Disk, filename: string, content: seq<uint8>) returns (r: Result<(), StoreError>)
      modifies disk
      ensures var path := PathOf(filename);
        && r == (if path in disk.writeFaults then Err(Io(disk.writeFaults[path])) else Ok(()))
        && disk.files == WriteFile(old(disk.files), disk.writeFaults, path, content)
      ensures r.Ok? && PathOf(filename) !in disk.readFaults ==>
        GetObject(disk.files, disk.readFaults, filename) == Ok(Some(content))
    {
      var written := disk.Write(PathOf(filename), content);
      match written
      case Ok(_) => r := Ok(());
      case Err(e) => r := Err(Io(e));
    }
  }

  /** Within one store, distinct filenames are distinct paths. */
  lemma PathInjective(store: FileStore, f: string, g: string)
    ensures store.PathOf(f) == store.PathOf(g) ==> f == g
  {
    var pf, pg := store.PathOf(f), store.PathOf(g);
    if pf == pg {
      var n := |store.rootDir| + 1;
      assert f == pf[n..] && g == pg[n..];
    }
  }

  /**
   * A successful put of `f` followed by a get: `f` reads back the written
   * content (unless its read is faulted) and every other filename reads as
   * before.
   */
  lemma PutThenGet(store: FileStore, files: map<string, seq<uint8>>, readFaults: map<string, IoError>,
                   writeFaults: map<string, IoError>, f: string, g: string, content: seq<uint8>)
    requires store.PathOf(f) !in writeFaults
    ensures var after := WriteFile(files, writeFaults, store.PathOf(f), content);
      && (store.PathOf(f) !in readFaults ==> store.GetObject(after, readFaults, f) == Ok(Some(content)))
      && (g != f ==> store.GetObject(after, readFaults, g) == store.GetObject(files, readFaults, g))
  {
    PathInjective(store, f, g);
  }

  /** A file that is absent reads as absence, never as an error. */
  lemma MissingFileIsAbsent(store: FileStore, files: map<string, seq<uint8>>, readFaults: map<string, IoError>, f: string)
    requires store.PathOf(f) !in files && store.PathOf(f) !in readFaults
    ensures store.GetObject(files, readFaults, f) == Ok(None)
  {
  }
}
