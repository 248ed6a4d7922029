/** The local store: the directory tree under the cache root, as the proxy sees
    it through `existsSync`, `mkdirSync(…, { recursive: true })`,
    `createWriteStream(…, { flags: "w+" })` and `createReadStream`. */
module Store {
  import opened Wrappers
  import NodePath

  type Byte = bv8

  /** Regular files with their bytes, and directories, keyed by path. */
  datatype Fs = Fs(files: map<string, seq<Byte>>, dirs: set<string>)

  /** A path names a file or a directory, never both. */
  predicate Valid(fs: Fs) {
    fs.files.Keys !! fs.dirs
  }

  /** `existsSync(p)`. */
  predicate Exists(fs: Fs, p: string) {
    p in fs.files || p in fs.dirs
  }

  /** A directory and every directory above it, by repeated `dirname`. */
  function Ancestors(d: string): (r: set<string>)
    ensures d in r
    decreases if d == "." then 0 else |d| + 2
  {
    var parent := NodePath.Dirname(d);
    if parent == d then {d} else {d} + Ancestors(parent)
  }

  /** `mkdirSync(d, { recursive: true })`: creates `d` and its missing
      ancestors; throws when one of them is a file. */
  function MakeDirs(fs: Fs, d: string): (r: Result<Fs>)
    ensures r.Ok? ==> r.value.files == fs.files && r.value.dirs == fs.dirs + Ancestors(d)
    ensures r.Ok? <==> Ancestors(d) !! fs.files.Keys
    ensures Valid(fs) && r.Ok? ==> Valid(r.value)
  {
    if Ancestors(d) !! fs.files.Keys then Ok(Fs(fs.files, fs.dirs + Ancestors(d)))
    else Err("ENOTDIR")
  }

  /** Opening `p` with flags "w+" and writing `data` to it: creates or
      truncates the file; fails when `p` is a directory or its parent is
      not one. */
  function WriteFile(fs: Fs, p: string, data: seq<Byte>): (r: Result<Fs>)
    ensures r.Ok? <==> p !in fs.dirs && NodePath.Dirname(p) in fs.dirs
    ensures r.Ok? ==> r.value.dirs == fs.dirs && r.value.files.Keys == fs.files.Keys + {p}
    ensures r.Ok? ==> r.value.files[p] == data
    ensures r.Ok? ==> forall q :: q in fs.files && q != p ==> r.value.files[q] == fs.files[q]
    ensures Valid(fs) && r.Ok? ==> Valid(r.value)
  {
    if p in fs.dirs then Err("EISDIR")
    else if NodePath.Dirname(p) !in fs.dirs then Err("ENOENT")
    else Ok(Fs(fs.files[p := data], fs.dirs))
  }

  /** What `createReadStream(p)` delivers once `existsSync(p)` held: the
      file's bytes, or an error event for a directory. */
  datatype Read = Missing | Directory | Content(data: seq<Byte>)

  function ReadFile(fs: Fs, p: string): (r: Read)
    ensures r.Missing? <==> !Exists(fs, p)
    ensures r.Content? <==> p in fs.files
    ensures r.Content? ==> r.data == fs.files[p]
  {
    if p in fs.files then Content(fs.files[p])
    else if p in fs.dirs then Directory
    else Missing
  }

  /** Creating the parent directory and then writing, as an upload does:
      `mkdirSync` only when `existsSync(dirname(p))` is false. The result
      says which step failed and keeps the directories the first one made. */
  datatype Uploaded = MkdirFailed | WriteFailed(after: Fs) | Written(after: Fs)

  function Upload(fs: Fs, p: string, data: seq<Byte>): (r: Uploaded)
    ensures r.Written? ==> r.after.files == fs.files[p := data] && ReadFile(r.after, p) == Content(data)
    ensures r.Written? ==> NodePath.Dirname(p) in r.after.dirs
    ensures r.WriteFailed? ==> r.after.files == fs.files
    ensures !r.MkdirFailed? ==> fs.dirs <= r.after.dirs
    ensures r.MkdirFailed? <==> !Exists(fs, NodePath.Dirname(p)) && !(Ancestors(NodePath.Dirname(p)) !! fs.files.Keys)
    ensures !r.MkdirFailed? ==> r.after.dirs == if Exists(fs, NodePath.Dirname(p)) then fs.dirs
                                               else fs.dirs + Ancestors(NodePath.Dirname(p))
    ensures Valid(fs) && !r.MkdirFailed? ==> Valid(r.after)
  {
    var dir := NodePath.Dirname(p);
    var made := if Exists(fs, dir) then Ok(fs) else MakeDirs(fs, dir);
    match made
    case Err(_) => MkdirFailed
    case Ok(fs1) =>
      match WriteFile(fs1, p, data)
      case Err(_) => WriteFailed(fs1)
      case Ok(fs2) => Written(fs2)
  }

  /** An upload finishes whenever no directory on the way to `p` is a file
      and `p` itself is neither a directory nor one of those directories. */
  lemma UploadSucceeds(fs: Fs, p: string, data: seq<Byte>)
    requires Valid(fs)
    requires Ancestors(NodePath.Dirname(p)) !! fs.files.Keys
    requires p !in fs.dirs && p !in Ancestors(NodePath.Dirname(p))
    ensures Upload(fs, p, data).Written?
  {
    var dir := NodePath.Dirname(p);
    assert dir in Ancestors(dir);
  }

  /** Uploading again with the same bytes leaves the store as it was. */
  lemma UploadIdempotent(fs: Fs, p: string, data: seq<Byte>)
    requires Valid(fs)
    requires Upload(fs, p, data).Written?
    ensures Upload(Upload(fs, p, data).after, p, data) == Written(Upload(fs, p, data).after)
  {
    var after := Upload(fs, p, data).after;
    var dir := NodePath.Dirname(p);
    assert dir in after.dirs;
    assert after.files[p := data] == after.files;
  }
}
