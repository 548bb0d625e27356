/** The value types of the C boundary of the FSKit bridge: the result record
    every adapter returns, the two statistics records, the variable-length
    buffer, and the way an adapter turns the outcome of a filesystem call
    into a result record. */
module FfiTypes {
  import opened Common

  // libc errno values on the platform the bridge targets
  const ENOENT: i32 := 2
  const EIO: i32 := 5
  const EINVAL: i32 := 22

  /** `success` and a positive errno, 0 on success. */
  datatype FfiResult = FfiResult(success: bool, errorCode: i32)

  function ResultOk(): FfiResult
  {
    FfiResult(true, 0)
  }

  function ResultErr(errno: i32): FfiResult
  {
    FfiResult(false, errno)
  }

  function NotFound(): FfiResult
  {
    ResultErr(ENOENT)
  }

  function IoError(): FfiResult
  {
    ResultErr(EIO)
  }

  function InvalidArg(): FfiResult
  {
    ResultErr(EINVAL)
  }

  /** The four named constructors agree with the documented convention:
      `success` exactly when the code is 0, and each failure carries its
      own errno, so a caller can tell them apart by the code alone. */
  lemma NamedResultsFollowConvention()
    ensures ResultOk().success && ResultOk().errorCode == 0
    ensures forall r :: r in {ResultOk(), NotFound(), IoError(), InvalidArg()} ==>
              (r.success <==> r.errorCode == 0)
    ensures NotFound().errorCode == 2 && IoError().errorCode == 5 && InvalidArg().errorCode == 22
    ensures |{NotFound(), IoError(), InvalidArg()}| == 3
    ensures forall e :: ResultErr(e).errorCode == e && !ResultErr(e).success
  {
    assert NotFound() != IoError() && IoError() != InvalidArg() && NotFound() != InvalidArg();
  }

  // ---------------------------------------------------------------------
  // Statistics records
  // ---------------------------------------------------------------------

  /** File metadata as the filesystem reports it. */
  datatype Stats = Stats(ino: i64, mode: u32, nlink: u32, uid: u32, gid: u32,
                         size: i64, atime: i64, mtime: i64, ctime: i64)

  /** The same nine fields laid out for C. */
  datatype FfiStats = FfiStats(ino: i64, mode: u32, nlink: u32, uid: u32, gid: u32,
                               size: i64, atime: i64, mtime: i64, ctime: i64)

  /** The record `agentfs_stat` and `agentfs_lstat` write: a field-by-field copy. */
  function ToFfiStats(s: Stats): (f: FfiStats)
  {
    FfiStats(s.ino, s.mode, s.nlink, s.uid, s.gid, s.size, s.atime, s.mtime, s.ctime)
  }

  /** Reading the C record back gives the filesystem's record. */
  function FromFfiStats(f: FfiStats): (s: Stats)
  {
    Stats(f.ino, f.mode, f.nlink, f.uid, f.gid, f.size, f.atime, f.mtime, f.ctime)
  }

  /** Nothing is lost or reordered by the copy: every C field holds the
      filesystem field of the same name, and the copy is a bijection. */
  lemma StatsCopyIsVerbatim(s: Stats, f: FfiStats)
    ensures var c := ToFfiStats(s);
            c.ino == s.ino && c.mode == s.mode && c.nlink == s.nlink && c.uid == s.uid && c.gid == s.gid
            && c.size == s.size && c.atime == s.atime && c.mtime == s.mtime && c.ctime == s.ctime
    ensures var b := FromFfiStats(f);
            b.ino == f.ino && b.mode == f.mode && b.nlink == f.nlink && b.uid == f.uid && b.gid == f.gid
            && b.size == f.size && b.atime == f.atime && b.mtime == f.mtime && b.ctime == f.ctime
    ensures FromFfiStats(ToFfiStats(s)) == s
    ensures ToFfiStats(FromFfiStats(f)) == f
    ensures ToFfiStats(s) == f <==> s == FromFfiStats(f)
  {
  }

  datatype FsStats = FsStats(inodes: u64, bytesUsed: u64)

  datatype FfiFilesystemStats = FfiFilesystemStats(inodes: u64, bytesUsed: u64)

  function ToFfiFilesystemStats(s: FsStats): FfiFilesystemStats
  {
    FfiFilesystemStats(s.inodes, s.bytesUsed)
  }

  // ---------------------------------------------------------------------
  // Buffers
  // ---------------------------------------------------------------------

  /** What the `data` pointer of a buffer is: null, the dangling non-null
      pointer of an empty boxed slice (no allocation behind it), or a live
      allocation named by an id. */
  datatype BufPtr = NullPtr | Dangling | HeapPtr(id: nat)

  datatype FfiBuffer = FfiBuffer(data: BufPtr, len: nat, capacity: nat)

  /** `FFIBuffer::null`: the sentinel written on every failure. */
  function NullBuffer(): FfiBuffer
  {
    FfiBuffer(NullPtr, 0, 0)
  }

  /** A C string pointer: null or a live allocation. */
  datatype CStrPtr = NullStr | HeapStr(id: nat)

  // ---------------------------------------------------------------------
  // Outcomes of filesystem calls and their mapping
  // ---------------------------------------------------------------------

  /** The answer of a lookup-style call (`Result<Option<T>>`): a value, no
      such entry, or an error. `fsErrno` is what `FsError::to_errno` gives
      when the error is a filesystem error, None for any other error. */
  datatype Outcome<T> = Value(v: T) | Absent | Fail(fsErrno: Option<i32>)

  /** The answer of a call that returns `Result<T>`. */
  datatype Reply<T> = Done(v: T) | Failed(fsErrno: Option<i32>)

  /** Lookup-style adapters: a value is success, no entry is ENOENT, any
      error is EIO. */
  function LookupResult<T>(o: Outcome<T>): FfiResult
  {
    match o
    case Value(_) => ResultOk()
    case Absent => NotFound()
    case Fail(_) => IoError()
  }

  /** pwrite, write_file, truncate, fsync and statfs: any error is EIO. */
  function PlainResult<T>(r: Reply<T>): FfiResult
  {
    if r.Done? then ResultOk() else IoError()
  }

  /** mkdir, remove, rename and symlink: a filesystem error keeps its own
      errno, any other error is EIO. */
  function ClassifiedResult<T>(r: Reply<T>): FfiResult
  {
    match r
    case Done(_) => ResultOk()
    case Failed(Some(e)) => ResultErr(e)
    case Failed(None) => IoError()
  }

  /** The three kinds of answer a caller can tell apart. */
  datatype Kind = Found | Missing | Broken

  function KindOf<T>(o: Outcome<T>): Kind
  {
    match o
    case Value(_) => Found
    case Absent => Missing
    case Fail(_) => Broken
  }

  /** How a caller reads a lookup adapter's result record. */
  function ReadResult(r: FfiResult): Option<Kind>
  {
    if r.success then Some(Found)
    else if r.errorCode == ENOENT then Some(Missing)
    else if r.errorCode == EIO then Some(Broken)
    else None
  }

  /** The caller recovers exactly which of the three outcomes happened,
      and the error detail of a failed lookup never reaches it. */
  lemma LookupResultIsFaithful<T>(o: Outcome<T>, e1: Option<i32>, e2: Option<i32>)
    ensures ReadResult(LookupResult(o)) == Some(KindOf(o))
    ensures LookupResult(o).success <==> o.Value?
    ensures LookupResult<T>(Fail(e1)) == LookupResult<T>(Fail(e2))
  {
  }

  /** The plain mapping forgets the filesystem errno; the classified one
      keeps it, and the two agree whenever there is no errno to keep. */
  lemma MappingsCompared<T>(r: Reply<T>)
    ensures PlainResult(r).success <==> r.Done?
    ensures ClassifiedResult(r).success <==> r.Done?
    ensures r.Failed? ==> PlainResult(r) == IoError()
    ensures r.Failed? && r.fsErrno.Some? ==> ClassifiedResult(r).errorCode == r.fsErrno.value
    ensures r.Done? || r.fsErrno.None? ==> ClassifiedResult(r) == PlainResult(r)
  {
  }
}
