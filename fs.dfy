/**
 * The file system as the vault sees it through Go's `os` package: a map from
 * paths to contents, plus the paths whose reads, or writes and removals, are
 * refused (permissions). `FileSystem` is the mutable disk that methods update.
 */
module Fs {
  import opened Base

  type Path = GoString

  datatype IoError = NotExist | PermissionDenied

  datatype ReadResult = Data(bytes: Bytes) | ReadFailed(cause: IoError)

  datatype Disk = Disk(files: map<Path, Bytes>, unreadable: set<Path>, unwritable: set<Path>)

  /** The error an operation returned, and the disk after it. */
  datatype IoStep = IoStep(err: Option<IoError>, disk: Disk)

  /** `os.Stat(p)` returns no error. */
  predicate Exists(d: Disk, p: Path) {
    p in d.files
  }

  /** `os.ReadFile(p)`. */
  function Read(d: Disk, p: Path): (r: ReadResult)
    ensures r.Data? <==> p in d.files && p !in d.unreadable
    ensures r.Data? ==> r.bytes == d.files[p]
    ensures r == ReadFailed(NotExist) <==> p !in d.files
  {
    if p !in d.files then ReadFailed(NotExist)
    else if p in d.unreadable then ReadFailed(PermissionDenied)
    else Data(d.files[p])
  }

  /** `os.WriteFile(p, data, perm)`: creates or truncates `p`. */
  function Write(d: Disk, p: Path, data: Bytes): (r: IoStep)
    ensures r.err.None? <==> p !in d.unwritable
    ensures r.err.None? ==> r.disk == d.(files := d.files[p := data])
    ensures r.err.Some? ==> r.disk == d
  {
    if p in d.unwritable then IoStep(Some(PermissionDenied), d)
    else IoStep(None, d.(files := d.files[p := data]))
  }

  /** `os.Rename(from, to)`: replaces `to` with `from`. */
  function Rename(d: Disk, from: Path, to: Path): (r: IoStep)
    ensures r.err.None? <==> from in d.files && from !in d.unwritable && to !in d.unwritable
    ensures r.err.None? ==> r.disk == d.(files := (d.files - {from})[to := d.files[from]])
    ensures r.err.Some? ==> r.disk == d
  {
    if from !in d.files then IoStep(Some(NotExist), d)
    else if from in d.unwritable || to in d.unwritable then IoStep(Some(PermissionDenied), d)
    else IoStep(None, d.(files := (d.files - {from})[to := d.files[from]]))
  }

  /** `os.Remove(p)`. */
  function Remove(d: Disk, p: Path): (r: IoStep)
    ensures r.err.None? <==> p in d.files && p !in d.unwritable
    ensures r.err.None? ==> r.disk == d.(files := d.files - {p})
    ensures r.err.Some? ==> r.disk == d
  {
    if p !in d.files then IoStep(Some(NotExist), d)
    else if p in d.unwritable then IoStep(Some(PermissionDenied), d)
    else IoStep(None, d.(files := d.files - {p}))
  }

  class FileSystem {
    var disk: Disk

    constructor (d: Disk)
      ensures disk == d
    {
      disk := d;
    }

    method WriteFile(p: Path, data: Bytes) returns (err: Option<IoError>)
      modifies this
      ensures IoStep(err, disk) == Write(old(disk), p, data)
    {
      var step := Write(disk, p, data);
      err, disk := step.err, step.disk;
    }

    method RenameFile(from: Path, to: Path) returns (err: Option<IoError>)
      modifies this
      ensures IoStep(err, disk) == Rename(old(disk), from, to)
    {
      var step := Rename(disk, from, to);
      err, disk := step.err, step.disk;
    }

    method RemoveFile(p: Path) returns (err: Option<IoError>)
      modifies this
      ensures IoStep(err, disk) == Remove(old(disk), p)
    {
      var step := Remove(disk, p);
      err, disk := step.err, step.disk;
    }
  }
}
