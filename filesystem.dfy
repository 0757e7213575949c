/**
 * The file system as the core sees it: a value holding regular files (path to bytes) and
 * directories (path to the listing that os.ReadDir returns, in listing order).
 * Every read is a function of this value and every write returns a new value.
 */
module FileSystem {
  import opened Wrappers

  type byte = bv8

  /** The line separator the move pipeline inserts and collapses. */
  const NewLine: byte := 10

  predicate Ascii(s: string)
  {
    forall i :: 0 <= i < |s| ==> s[i] < 128 as char
  }

  /** Go's []byte(s) on an ASCII string: one byte per character, same code. */
  function Bytes(s: string): (b: seq<byte>)
    requires Ascii(s)
    ensures |b| == |s|
  {
    seq(|s|, i requires 0 <= i < |s| => s[i] as int as byte)
  }

  /** One entry of a directory listing: its bare name and whether it is a regular file. */
  datatype DirEntry = DirEntry(name: string, regular: bool)

  datatype FileError =
    | NotExist(path: string)       // stat, open or read of a missing path
    | IsADirectory(path: string)   // read or open-for-write of a directory
    | NotADirectory(path: string)  // listing of something that is not a directory

  datatype Fs = Fs(files: map<string, seq<byte>>, dirs: map<string, seq<DirEntry>>) {

    /** A path is a file or a directory, never both; every listed regular entry is a file of
        this value under its joined path; entry names are non-empty single path elements. */
    ghost predicate Valid() {
      && files.Keys !! dirs.Keys
      && (forall d :: d in dirs ==> forall e :: e in dirs[d] ==> e.name != "" && '/' !in e.name)
      && (forall d :: d in dirs ==> forall e :: e in dirs[d] && e.regular ==> Join(d, e.name) in files)
    }
  }

  /** os.Stat followed by IsDir(): fails for a path that does not exist. */
  function StatIsDir(fs: Fs, path: string): (r: Result<bool, FileError>)
    ensures r.Err? <==> path !in fs.files && path !in fs.dirs
    ensures r.Ok? ==> (r.value <==> path in fs.dirs)
  {
    if path in fs.dirs then Ok(true)
    else if path in fs.files then Ok(false)
    else Err(NotExist(path))
  }

  /** os.ReadFile. */
  function ReadFile(fs: Fs, path: string): (r: Result<seq<byte>, FileError>)
    ensures r.Ok? <==> path in fs.files
    ensures r.Ok? ==> r.value == fs.files[path]
  {
    if path in fs.files then Ok(fs.files[path])
    else if path in fs.dirs then Err(IsADirectory(path))
    else Err(NotExist(path))
  }

  /** os.ReadDir. */
  function ReadDir(fs: Fs, path: string): (r: Result<seq<DirEntry>, FileError>)
    ensures r.Ok? <==> path in fs.dirs
    ensures r.Ok? ==> r.value == fs.dirs[path]
  {
    if path in fs.dirs then Ok(fs.dirs[path])
    else if path in fs.files then Err(NotADirectory(path))
    else Err(NotExist(path))
  }

  /** os.WriteFile: replaces the whole content of a regular file. */
  function WriteFile(fs: Fs, path: string, content: seq<byte>): (fs': Fs)
    requires path in fs.files
    ensures fs'.files == fs.files[path := content] && fs'.dirs == fs.dirs
  {
    fs.(files := fs.files[path := content])
  }

  /** The path up to and including the separator before its last element; "" for a bare name. */
  function DirPrefix(path: string): (d: string)
    ensures |d| <= |path| && d == path[..|d|]
    ensures d == [] || d[|d| - 1] == '/'
    decreases |path|
  {
    if path == [] || path[|path| - 1] == '/' then path else DirPrefix(path[..|path| - 1])
  }

  /** The directory a path names its last element in: "" for a bare name (the working
      directory), "/" for a name directly under the root. */
  function Parent(path: string): string
  {
    var d := DirPrefix(path);
    if |d| <= 1 then d else d[..|d| - 1]
  }

  /** The directory a new file would be created in exists: the working directory and the root
      always do, any other one must be a directory of the file system. */
  predicate ParentExists(fs: Fs, path: string)
  {
    var d := Parent(path);
    d == "" || d == "/" || d in fs.dirs
  }

  /** What open(2) with O_CREAT|O_WRONLY accepts: a non-empty path naming no directory, either an
      existing file or a new name whose parent directory exists. */
  predicate Openable(fs: Fs, path: string)
  {
    && path != "" && path !in fs.dirs && path[|path| - 1] != '/'
    && (path in fs.files || ParentExists(fs, path))
  }

  /** os.OpenFile with O_CREATE|O_WRONLY: the bytes the file holds when it is opened, a missing
      file being created empty. The empty path and a missing parent directory fail with ENOENT,
      a directory or a name ending in a separator with EISDIR. */
  function OpenCreate(fs: Fs, path: string): (r: Result<seq<byte>, FileError>)
    ensures r.Ok? <==> Openable(fs, path)
    ensures path != "" && path !in fs.dirs && path[|path| - 1] != '/' && path !in fs.files && !ParentExists(fs, path) ==>
              r == Err(NotExist(path))
    ensures r.Ok? ==> r.value == (if path in fs.files then fs.files[path] else [])
  {
    if path == "" then Err(NotExist(path))
    else if path in fs.dirs || path[|path| - 1] == '/' then Err(IsADirectory(path))
    else if path in fs.files then Ok(fs.files[path])
    else if !ParentExists(fs, path) then Err(NotExist(path))
    else Ok([])
  }

  /** Writing a file that is not a directory keeps the file system consistent. */
  lemma WriteKeepsValid(fs: Fs, path: string, content: seq<byte>)
    ensures fs.Valid() && path !in fs.dirs ==> fs.(files := fs.files[path := content]).Valid()
  {
  }

  /** path.Join(dir, name) for a clean directory and a single entry name: the empty element
      is dropped and no separator is doubled. */
  function Join(dir: string, name: string): (r: string)
    ensures dir != "" && name != "" ==> |r| > |dir| && r[..|dir|] == dir
    ensures dir != "" && name != "" ==> (dir[|dir| - 1] == '/' || r[|dir|] == '/')
  {
    if dir == "" then name
    else if name == "" then dir
    else if dir[|dir| - 1] == '/' then dir + name
    else dir + "/" + name
  }

  /** The path with its trailing separators removed. */
  function TrimTrailingSlashes(path: string): (t: string)
    ensures |t| <= |path| && t == path[..|t|]
    ensures t == [] || t[|t| - 1] != '/'
    decreases |path|
  {
    if path != [] && path[|path| - 1] == '/' then TrimTrailingSlashes(path[..|path| - 1]) else path
  }

  /** The longest suffix without a separator. */
  function LastElement(path: string): (b: string)
    ensures '/' !in b
    decreases |path|
  {
    if path == [] || path[|path| - 1] == '/' then []
    else LastElement(path[..|path| - 1]) + [path[|path| - 1]]
  }

  /** filepath.Base: "." for the empty path, "/" for a path of separators only, otherwise the
      last element after trailing separators are removed. */
  function Base(path: string): (b: string)
    ensures b != ""
    ensures '/' !in b || b == "/"
  {
    if path == "" then "."
    else
      var t := TrimTrailingSlashes(path);
      if t == "" then "/" else LastElement(t)
  }

  /** A name following a separator is the last element. */
  lemma {:induction false} LastElementAfterSeparator(front: string, name: string)
    requires '/' !in name
    requires front == [] || front[|front| - 1] == '/'
    ensures LastElement(front + name) == name
    decreases |name|
  {
    if name == [] {
      assert front + name == front;
    } else {
      var init := name[..|name| - 1];
      var whole := front + name;
      assert whole[|whole| - 1] == name[|name| - 1] != '/';
      assert whole[..|whole| - 1] == front + init;
      assert '/' !in init by {
        forall i | 0 <= i < |init| ensures init[i] != '/' { assert init[i] == name[i]; }
      }
      LastElementAfterSeparator(front, init);
      assert name == init + [name[|name| - 1]];
    }
  }

  /** The base of a joined entry is the entry's name again. */
  lemma BaseOfJoin(dir: string, name: string)
    requires name != "" && '/' !in name
    ensures Base(Join(dir, name)) == name
  {
    var j := Join(dir, name);
    var front := if dir == "" then "" else if dir[|dir| - 1] == '/' then dir else dir + "/";
    assert j == front + name;
    assert j[|j| - 1] == name[|name| - 1];
    LastElementAfterSeparator(front, name);
  }

  predicate IsAbs(path: string)
  {
    |path| > 0 && path[0] == '/'
  }

  /** filepath.Abs: an absolute path is kept, a relative one is joined to the working directory. */
  function Abs(cwd: string, path: string): (r: string)
    requires IsAbs(cwd)
    ensures IsAbs(r)
    ensures IsAbs(path) ==> r == path
  {
    if IsAbs(path) then path else Join(cwd, path)
  }
}
