/** The exported `agentfs_*` functions of the FSKit bridge, seen from the C
    side. A `Boundary` holds what those functions touch: the allocations the
    bridge hands out (buffers and C strings, by id), the open handles, the
    caller-owned output slots the adapters write through, and the log of
    filesystem calls that reached the filesystem. The filesystem itself is
    an oracle: each adapter receives the answer its one call would give. */
module FfiBoundary {
  import opened Common
  import opened FfiTypes
  import DirJson

  /** What an allocation handed to the caller holds. */
  datatype Block = Bytes(bytes: seq<byte>) | CText(text: string)

  /** The filesystem a handle was opened on: the database alone, or the
      database layered over a host directory. */
  datatype Backing = Direct(dbPath: string) | Overlay(dbPath: string, basePath: string)

  /** A handle argument: null or the id of an opened handle. */
  datatype HandleArg = NullHandle | HandlePtr(id: nat)

  /** A C string argument: null, valid UTF-8 text, or bytes that are not UTF-8. */
  datatype CStrArg = NullArg | Utf8(text: string) | NotUtf8

  /** The `data` argument of the write functions: null, or the bytes it points to. */
  datatype DataArg = NullData | DataPtr(bytes: seq<byte>)

  /** One filesystem call, with the arguments the adapter passed. */
  datatype Call =
    | StatCall(path: string)
    | LstatCall(path: string)
    | PreadCall(path: string, offset: u64, size: u64)
    | PwriteCall(path: string, offset: u64, data: seq<byte>)
    | ReadFileCall(path: string)
    | WriteFileCall(path: string, data: seq<byte>)
    | TruncateCall(path: string, size: u64)
    | ReaddirCall(path: string)
    | MkdirCall(path: string)
    | RemoveCall(path: string)
    | RenameCall(from: string, to: string)
    | SymlinkCall(target: string, linkpath: string)
    | ReadlinkCall(path: string)
    | StatfsCall
    | FsyncCall(path: string)

  datatype Invocation = Invocation(handle: nat, call: Call)

  /** How each step of `agentfs_open` turns out: creating the runtime,
      resolving the path, opening the database, the overlay base path the
      database records (if any), and opening that host directory. */
  datatype OpenEnv = OpenEnv(runtimeOk: bool, resolveOk: bool, dbOpenOk: bool,
                             overlayBase: Option<string>, hostFsOk: bool)

  /** The handle, the path and the output pointer are non-null and the
      path is UTF-8: the only arguments an adapter passes on to the
      filesystem. `outPtr` is true for the adapters without an output. */
  predicate Accepted(h: HandleArg, path: CStrArg, outPtr: bool)
  {
    h.HandlePtr? && path.Utf8? && outPtr
  }

  /** The same for the adapters that take two paths. */
  predicate AcceptedPair(h: HandleArg, first: CStrArg, second: CStrArg)
  {
    h.HandlePtr? && first.Utf8? && second.Utf8?
  }

  /** The slice the write functions hand to the filesystem. A null pointer
      and a zero length both give the empty slice. */
  function DataSlice(data: DataArg, dataLen: nat): (s: seq<byte>)
    requires data.DataPtr? ==> dataLen <= |data.bytes|
    ensures data.NullData? ==> s == []
    ensures data.DataPtr? ==> s == data.bytes[..dataLen]
  {
    if data.NullData? || dataLen == 0 then [] else data.bytes[..dataLen]
  }

  /** Some name contains a NUL character. */
  predicate HasNul(names: seq<string>)
  {
    exists i :: 0 <= i < |names| && '\0' in names[i]
  }

  class Boundary {
    var heap: map<nat, Block>
    var handles: map<nat, Backing>
    var nextId: nat
    var calls: seq<Invocation>

    // caller-owned output slots
    var statsOut: FfiStats
    var fsStatsOut: FfiFilesystemStats
    var bufferOut: FfiBuffer
    var stringOut: CStrPtr

    /** Ids are never reused: every live allocation and handle has an id
        below `nextId`. */
    ghost predicate Valid()
      reads this
    {
      (forall id :: id in heap ==> id < nextId) && (forall id :: id in handles ==> id < nextId)
    }

    /** The caller's side of the contract: a non-null handle is open. */
    predicate Live(h: HandleArg)
      reads this
    {
      h.HandlePtr? ==> h.id in handles
    }

    constructor ()
      ensures Valid()
      ensures heap == map[] && handles == map[] && calls == []
      ensures bufferOut == NullBuffer() && stringOut == NullStr
    {
      heap := map[];
      handles := map[];
      nextId := 0;
      calls := [];
      statsOut := FfiStats(0, 0, 0, 0, 0, 0, 0, 0, 0);
      fsStatsOut := FfiFilesystemStats(0, 0);
      bufferOut := NullBuffer();
      stringOut := NullStr;
    }

    /** The bytes a buffer makes visible to the caller. */
    function BufferContents(b: FfiBuffer): seq<byte>
      reads this
    {
      match b.data
      case HeapPtr(id) =>
        if id in heap && heap[id].Bytes? && b.len <= |heap[id].bytes| then heap[id].bytes[..b.len] else []
      case _ => []
    }

    /** The text a string pointer makes visible to the caller. */
    function StringContents(p: CStrPtr): Option<string>
      reads this
    {
      if p.HeapStr? && p.id in heap && heap[p.id].CText? then Some(heap[p.id].text) else None
    }

    /** The null buffer has a null pointer, length 0 and capacity 0: it
        shows the caller no bytes, and `FreeBuffer` releases nothing for it. */
    lemma NullBufferIsInert()
      ensures BufferContents(NullBuffer()) == []
      ensures var n := NullBuffer(); !(n.data.HeapPtr? && n.capacity > 0) && n.len == 0
      ensures NullBuffer() == FfiBuffer(NullPtr, 0, 0)
    {
    }

    /** `buf` is what `FFIBuffer::from_vec(v)` gives when the heap was
        `heap0` and the next id `next0`: an empty vector yields the
        dangling pointer and allocates nothing, any other a new allocation
        holding `v`. */
    ghost predicate NewBuffer(heap0: map<nat, Block>, next0: nat, buf: FfiBuffer, v: seq<byte>)
      reads this
    {
      buf.len == |v| && buf.capacity == |v|
      && if |v| == 0 then buf.data == Dangling && heap == heap0 && nextId == next0
         else buf.data == HeapPtr(next0) && next0 !in heap0
              && heap == heap0[next0 := Bytes(v)] && nextId == next0 + 1
    }

    /** `p` is what `CString::into_raw` gives for `text`: a new allocation. */
    ghost predicate NewString(heap0: map<nat, Block>, next0: nat, p: CStrPtr, text: string)
      reads this
    {
      p == HeapStr(next0) && next0 !in heap0
      && heap == heap0[next0 := CText(text)] && nextId == next0 + 1
    }

    method Allocate(b: Block) returns (id: nat)
      requires Valid()
      modifies this`heap, this`nextId
      ensures Valid()
      ensures id == old(nextId) && id !in old(heap)
      ensures heap == old(heap)[id := b] && nextId == old(nextId) + 1
    {
      id := nextId;
      heap := heap[id := b];
      nextId := nextId + 1;
    }

    /** `FFIBuffer::from_vec`: length and capacity are the vector's length
        and the caller sees exactly the vector's bytes. */
    method FromVec(v: seq<byte>) returns (buf: FfiBuffer)
      requires Valid()
      modifies this`heap, this`nextId
      ensures Valid()
      ensures NewBuffer(old(heap), old(nextId), buf, v)
      ensures buf.data != NullPtr && BufferContents(buf) == v
    {
      if |v| == 0 {
        buf := FfiBuffer(Dangling, 0, 0);
      } else {
        var id := Allocate(Bytes(v));
        buf := FfiBuffer(HeapPtr(id), |v|, |v|);
        assert heap[id].bytes[..|v|] == v;
      }
    }

    /** `CString::into_raw`, for text already known to hold no NUL. */
    method IntoRaw(text: string) returns (p: CStrPtr)
      requires Valid() && '\0' !in text
      modifies this`heap, this`nextId
      ensures Valid()
      ensures NewString(old(heap), old(nextId), p, text)
      ensures StringContents(p) == Some(text)
    {
      var id := Allocate(CText(text));
      p := HeapStr(id);
    }

    // -------------------------------------------------------------------
    // Lifecycle
    // -------------------------------------------------------------------

    /** `agentfs_open`: a handle exactly when the path is given as UTF-8 and
        every step succeeds; the handle is layered over the host directory
        exactly when the database records a base path. A null result
        leaves everything as it was. */
    method Open(dbPath: CStrArg, env: OpenEnv) returns (h: HandleArg)
      requires Valid()
      modifies this`handles, this`nextId
      ensures Valid()
      ensures h.HandlePtr? <==> dbPath.Utf8? && env.runtimeOk && env.resolveOk && env.dbOpenOk
                                && (env.overlayBase.Some? ==> env.hostFsOk)
      ensures h.NullHandle? ==> handles == old(handles) && nextId == old(nextId)
      ensures h.HandlePtr? ==>
                h.id == old(nextId) && h.id !in old(handles) && nextId == old(nextId) + 1
                && handles == old(handles)[h.id := match env.overlayBase
                                                   case Some(base) => Overlay(dbPath.text, base)
                                                   case None => Direct(dbPath.text)]
    {
      if dbPath.NullArg? || dbPath.NotUtf8? || !env.runtimeOk || !env.resolveOk || !env.dbOpenOk {
        return NullHandle;
      }
      var backing: Backing;
      match env.overlayBase {
        case Some(base) =>
          if !env.hostFsOk {
            return NullHandle;
          }
          backing := Overlay(dbPath.text, base);
        case None =>
          backing := Direct(dbPath.text);
      }
      h := HandlePtr(nextId);
      handles := handles[nextId := backing];
      nextId := nextId + 1;
    }

    /** `agentfs_close`: a null handle is ignored; any other is released.
        Buffers and strings already handed out stay live. */
    method Close(h: HandleArg)
      requires Valid() && Live(h)
      modifies this`handles
      ensures Valid()
      ensures handles == if h.HandlePtr? then old(handles) - {h.id} else old(handles)
    {
      if h.HandlePtr? {
        handles := handles - {h.id};
      }
    }

    // -------------------------------------------------------------------
    // Metadata
    // -------------------------------------------------------------------

    /** `agentfs_stat`: on a value all nine fields are copied into the slot;
        on no entry or an error the slot is left as it was. */
    method Stat(h: HandleArg, path: CStrArg, outStats: bool, o: Outcome<Stats>) returns (r: FfiResult)
      requires Valid() && Live(h)
      modifies this`calls, this`statsOut
      ensures !Accepted(h, path, outStats) ==>
                r == InvalidArg() && calls == old(calls) && statsOut == old(statsOut)
      ensures Accepted(h, path, outStats) ==>
                calls == old(calls) + [Invocation(h.id, StatCall(path.text))]
                && r == LookupResult(o)
                && statsOut == if o.Value? then ToFfiStats(o.v) else old(statsOut)
    {
      if h.NullHandle? || path.NullArg? || !outStats || path.NotUtf8? {
        return InvalidArg();
      }
      calls := calls + [Invocation(h.id, StatCall(path.text))];
      r := LookupResult(o);
      if o.Value? {
        statsOut := ToFfiStats(o.v);
      }
    }

    /** `agentfs_lstat`: as `Stat`, with the call that does not follow a
        final symbolic link. */
    method Lstat(h: HandleArg, path: CStrArg, outStats: bool, o: Outcome<Stats>) returns (r: FfiResult)
      requires Valid() && Live(h)
      modifies this`calls, this`statsOut
      ensures !Accepted(h, path, outStats) ==>
                r == InvalidArg() && calls == old(calls) && statsOut == old(statsOut)
      ensures Accepted(h, path, outStats) ==>
                calls == old(calls) + [Invocation(h.id, LstatCall(path.text))]
                && r == LookupResult(o)
                && statsOut == if o.Value? then ToFfiStats(o.v) else old(statsOut)
    {
      if h.NullHandle? || path.NullArg? || !outStats || path.NotUtf8? {
        return InvalidArg();
      }
      calls := calls + [Invocation(h.id, LstatCall(path.text))];
      r := LookupResult(o);
      if o.Value? {
        statsOut := ToFfiStats(o.v);
      }
    }

    // -------------------------------------------------------------------
    // File I/O
    // -------------------------------------------------------------------

    /** The buffer slot after a lookup that returns bytes: a new buffer with
        the bytes on a value, the null buffer otherwise. */
    method PutBuffer(o: Outcome<seq<byte>>)
      requires Valid()
      modifies this`bufferOut, this`heap, this`nextId
      ensures Valid()
      ensures o.Value? ==> NewBuffer(old(heap), old(nextId), bufferOut, o.v)
                           && BufferContents(bufferOut) == o.v
      ensures !o.Value? ==> bufferOut == NullBuffer() && heap == old(heap) && nextId == old(nextId)
    {
      if o.Value? {
        bufferOut := FromVec(o.v);
      } else {
        bufferOut := NullBuffer();
      }
    }

    /** `agentfs_pread`: no failure ever comes with an allocation. */
    method Pread(h: HandleArg, path: CStrArg, offset: u64, size: u64, outBuffer: bool,
                 o: Outcome<seq<byte>>) returns (r: FfiResult)
      requires Valid() && Live(h)
      modifies this`calls, this`bufferOut, this`heap, this`nextId
      ensures Valid()
      ensures !Accepted(h, path, outBuffer) ==>
                r == InvalidArg() && calls == old(calls) && bufferOut == old(bufferOut)
                && heap == old(heap) && nextId == old(nextId)
      ensures Accepted(h, path, outBuffer) ==>
                calls == old(calls) + [Invocation(h.id, PreadCall(path.text, offset, size))]
                && r == LookupResult(o)
      ensures Accepted(h, path, outBuffer) && o.Value? ==>
                NewBuffer(old(heap), old(nextId), bufferOut, o.v) && BufferContents(bufferOut) == o.v
      ensures Accepted(h, path, outBuffer) && !r.success ==>
                bufferOut == NullBuffer() && heap == old(heap) && nextId == old(nextId)
    {
      if h.NullHandle? || path.NullArg? || !outBuffer || path.NotUtf8? {
        return InvalidArg();
      }
      calls := calls + [Invocation(h.id, PreadCall(path.text, offset, size))];
      r := LookupResult(o);
      PutBuffer(o);
    }

    /** `agentfs_read_file`: as `Pread`, for the whole file. */
    method ReadFile(h: HandleArg, path: CStrArg, outBuffer: bool, o: Outcome<seq<byte>>)
      returns (r: FfiResult)
      requires Valid() && Live(h)
      modifies this`calls, this`bufferOut, this`heap, this`nextId
      ensures Valid()
      ensures !Accepted(h, path, outBuffer) ==>
                r == InvalidArg() && calls == old(calls) && bufferOut == old(bufferOut)
                && heap == old(heap) && nextId == old(nextId)
      ensures Accepted(h, path, outBuffer) ==>
                calls == old(calls) + [Invocation(h.id, ReadFileCall(path.text))]
                && r == LookupResult(o)
      ensures Accepted(h, path, outBuffer) && o.Value? ==>
                NewBuffer(old(heap), old(nextId), bufferOut, o.v) && BufferContents(bufferOut) == o.v
      ensures Accepted(h, path, outBuffer) && !r.success ==>
                bufferOut == NullBuffer() && heap == old(heap) && nextId == old(nextId)
    {
      if h.NullHandle? || path.NullArg? || !outBuffer || path.NotUtf8? {
        return InvalidArg();
      }
      calls := calls + [Invocation(h.id, ReadFileCall(path.text))];
      r := LookupResult(o);
      PutBuffer(o);
    }

    /** `agentfs_pwrite`: the filesystem receives the first `dataLen` bytes
        (nothing for a null pointer); any error is EIO. */
    method Pwrite(h: HandleArg, path: CStrArg, offset: u64, data: DataArg, dataLen: nat,
                  o: Reply<()>) returns (r: FfiResult)
      requires Valid() && Live(h)
      requires data.DataPtr? ==> dataLen <= |data.bytes|
      modifies this`calls
      ensures !Accepted(h, path, true) ==> r == InvalidArg() && calls == old(calls)
      ensures Accepted(h, path, true) ==>
                calls == old(calls) + [Invocation(h.id, PwriteCall(path.text, offset, DataSlice(data, dataLen)))]
                && r == PlainResult(o)
    {
      if h.NullHandle? || path.NullArg? || path.NotUtf8? {
        return InvalidArg();
      }
      calls := calls + [Invocation(h.id, PwriteCall(path.text, offset, DataSlice(data, dataLen)))];
      r := PlainResult(o);
    }

    /** `agentfs_write_file`: as `Pwrite`, replacing the whole file. */
    method WriteFile(h: HandleArg, path: CStrArg, data: DataArg, dataLen: nat, o: Reply<()>)
      returns (r: FfiResult)
      requires Valid() && Live(h)
      requires data.DataPtr? ==> dataLen <= |data.bytes|
      modifies this`calls
      ensures !Accepted(h, path, true) ==> r == InvalidArg() && calls == old(calls)
      ensures Accepted(h, path, true) ==>
                calls == old(calls) + [Invocation(h.id, WriteFileCall(path.text, DataSlice(data, dataLen)))]
                && r == PlainResult(o)
    {
      if h.NullHandle? || path.NullArg? || path.NotUtf8? {
        return InvalidArg();
      }
      calls := calls + [Invocation(h.id, WriteFileCall(path.text, DataSlice(data, dataLen)))];
      r := PlainResult(o);
    }

    /** `agentfs_truncate`: any error is EIO. */
    method Truncate(h: HandleArg, path: CStrArg, size: u64, o: Reply<()>) returns (r: FfiResult)
      requires Valid() && Live(h)
      modifies this`calls
      ensures !Accepted(h, path, true) ==> r == InvalidArg() && calls == old(calls)
      ensures Accepted(h, path, true) ==>
                calls == old(calls) + [Invocation(h.id, TruncateCall(path.text, size))]
                && r == PlainResult(o)
    {
      if h.NullHandle? || path.NullArg? || path.NotUtf8? {
        return InvalidArg();
      }
      calls := calls + [Invocation(h.id, TruncateCall(path.text, size))];
      r := PlainResult(o);
    }

    // -------------------------------------------------------------------
    // Directories
    // -------------------------------------------------------------------

    /** `agentfs_readdir`: on a value the slot gets a new C string holding
        the JSON array of the names, unless a name holds a NUL, which a C
        string cannot carry: then EIO and null. Every failure writes null. */
    method Readdir(h: HandleArg, path: CStrArg, outEntries: bool, o: Outcome<seq<string>>)
      returns (r: FfiResult)
      requires Valid() && Live(h)
      modifies this`calls, this`stringOut, this`heap, this`nextId
      ensures Valid()
      ensures !Accepted(h, path, outEntries) ==>
                r == InvalidArg() && calls == old(calls) && stringOut == old(stringOut)
                && heap == old(heap) && nextId == old(nextId)
      ensures Accepted(h, path, outEntries) ==>
                calls == old(calls) + [Invocation(h.id, ReaddirCall(path.text))]
      ensures Accepted(h, path, outEntries) && o.Value? && !HasNul(o.v) ==>
                r == ResultOk() && NewString(old(heap), old(nextId), stringOut, DirJson.Encode(o.v))
      ensures Accepted(h, path, outEntries) && o.Value? && HasNul(o.v) ==>
                r == IoError()
      ensures Accepted(h, path, outEntries) && !o.Value? ==> r == LookupResult(o)
      ensures Accepted(h, path, outEntries) && !r.success ==>
                stringOut == NullStr && heap == old(heap) && nextId == old(nextId)
    {
      if h.NullHandle? || path.NullArg? || !outEntries || path.NotUtf8? {
        return InvalidArg();
      }
      calls := calls + [Invocation(h.id, ReaddirCall(path.text))];
      match o {
        case Value(names) =>
          var json := DirJson.Encode(names);
          DirJson.NulInPayload(names);
          if '\0' in json {
            stringOut := NullStr;
            r := IoError();
          } else {
            stringOut := IntoRaw(json);
            r := ResultOk();
          }
        case Absent =>
          stringOut := NullStr;
          r := NotFound();
        case Fail(_) =>
          stringOut := NullStr;
          r := IoError();
      }
    }

    /** `agentfs_mkdir`: a filesystem error keeps its errno. */
    method Mkdir(h: HandleArg, path: CStrArg, o: Reply<()>) returns (r: FfiResult)
      requires Valid() && Live(h)
      modifies this`calls
      ensures !Accepted(h, path, true) ==> r == InvalidArg() && calls == old(calls)
      ensures Accepted(h, path, true) ==>
                calls == old(calls) + [Invocation(h.id, MkdirCall(path.text))]
                && r == ClassifiedResult(o)
    {
      if h.NullHandle? || path.NullArg? || path.NotUtf8? {
        return InvalidArg();
      }
      calls := calls + [Invocation(h.id, MkdirCall(path.text))];
      r := ClassifiedResult(o);
    }

    /** `agentfs_remove`: a filesystem error keeps its errno. */
    method Remove(h: HandleArg, path: CStrArg, o: Reply<()>) returns (r: FfiResult)
      requires Valid() && Live(h)
      modifies this`calls
      ensures !Accepted(h, path, true) ==> r == InvalidArg() && calls == old(calls)
      ensures Accepted(h, path, true) ==>
                calls == old(calls) + [Invocation(h.id, RemoveCall(path.text))]
                && r == ClassifiedResult(o)
    {
      if h.NullHandle? || path.NullArg? || path.NotUtf8? {
        return InvalidArg();
      }
      calls := calls + [Invocation(h.id, RemoveCall(path.text))];
      r := ClassifiedResult(o);
    }

    /** `agentfs_rename`: both paths must be given as UTF-8. */
    method Rename(h: HandleArg, from: CStrArg, to: CStrArg, o: Reply<()>) returns (r: FfiResult)
      requires Valid() && Live(h)
      modifies this`calls
      ensures !AcceptedPair(h, from, to) ==> r == InvalidArg() && calls == old(calls)
      ensures AcceptedPair(h, from, to) ==>
                calls == old(calls) + [Invocation(h.id, RenameCall(from.text, to.text))]
                && r == ClassifiedResult(o)
    {
      if h.NullHandle? || from.NullArg? || to.NullArg? {
        return InvalidArg();
      }
      if from.NotUtf8? || to.NotUtf8? {
        return InvalidArg();
      }
      calls := calls + [Invocation(h.id, RenameCall(from.text, to.text))];
      r := ClassifiedResult(o);
    }

    // -------------------------------------------------------------------
    // Symbolic links
    // -------------------------------------------------------------------

    /** `agentfs_symlink`: the link at `linkpath` will point to `target`. */
    method Symlink(h: HandleArg, target: CStrArg, linkpath: CStrArg, o: Reply<()>) returns (r: FfiResult)
      requires Valid() && Live(h)
      modifies this`calls
      ensures !AcceptedPair(h, target, linkpath) ==> r == InvalidArg() && calls == old(calls)
      ensures AcceptedPair(h, target, linkpath) ==>
                calls == old(calls) + [Invocation(h.id, SymlinkCall(target.text, linkpath.text))]
                && r == ClassifiedResult(o)
    {
      if h.NullHandle? || target.NullArg? || linkpath.NullArg? {
        return InvalidArg();
      }
      if target.NotUtf8? || linkpath.NotUtf8? {
        return InvalidArg();
      }
      calls := calls + [Invocation(h.id, SymlinkCall(target.text, linkpath.text))];
      r := ClassifiedResult(o);
    }

    /** `agentfs_readlink`: the slot gets a new C string with the target,
        or null with EIO when the target holds a NUL. */
    method Readlink(h: HandleArg, path: CStrArg, outTarget: bool, o: Outcome<string>)
      returns (r: FfiResult)
      requires Valid() && Live(h)
      modifies this`calls, this`stringOut, this`heap, this`nextId
      ensures Valid()
      ensures !Accepted(h, path, outTarget) ==>
                r == InvalidArg() && calls == old(calls) && stringOut == old(stringOut)
                && heap == old(heap) && nextId == old(nextId)
      ensures Accepted(h, path, outTarget) ==>
                calls == old(calls) + [Invocation(h.id, ReadlinkCall(path.text))]
      ensures Accepted(h, path, outTarget) && o.Value? && '\0' !in o.v ==>
                r == ResultOk() && NewString(old(heap), old(nextId), stringOut, o.v)
      ensures Accepted(h, path, outTarget) && o.Value? && '\0' in o.v ==> r == IoError()
      ensures Accepted(h, path, outTarget) && !o.Value? ==> r == LookupResult(o)
      ensures Accepted(h, path, outTarget) && !r.success ==>
                stringOut == NullStr && heap == old(heap) && nextId == old(nextId)
    {
      if h.NullHandle? || path.NullArg? || !outTarget || path.NotUtf8? {
        return InvalidArg();
      }
      calls := calls + [Invocation(h.id, ReadlinkCall(path.text))];
      match o {
        case Value(target) =>
          if '\0' in target {
            stringOut := NullStr;
            r := IoError();
          } else {
            stringOut := IntoRaw(target);
            r := ResultOk();
          }
        case Absent =>
          stringOut := NullStr;
          r := NotFound();
        case Fail(_) =>
          stringOut := NullStr;
          r := IoError();
      }
    }

    // -------------------------------------------------------------------
    // Whole filesystem
    // -------------------------------------------------------------------

    /** `agentfs_statfs`: the slot is written only on success. */
    method Statfs(h: HandleArg, outStats: bool, o: Reply<FsStats>) returns (r: FfiResult)
      requires Valid() && Live(h)
      modifies this`calls, this`fsStatsOut
      ensures !(h.HandlePtr? && outStats) ==>
                r == InvalidArg() && calls == old(calls) && fsStatsOut == old(fsStatsOut)
      ensures h.HandlePtr? && outStats ==>
                calls == old(calls) + [Invocation(h.id, StatfsCall)]
                && r == PlainResult(o)
                && fsStatsOut == if o.Done? then ToFfiFilesystemStats(o.v) else old(fsStatsOut)
    {
      if h.NullHandle? || !outStats {
        return InvalidArg();
      }
      calls := calls + [Invocation(h.id, StatfsCall)];
      r := PlainResult(o);
      if o.Done? {
        fsStatsOut := ToFfiFilesystemStats(o.v);
      }
    }

    /** `agentfs_fsync`: any error is EIO. */
    method Fsync(h: HandleArg, path: CStrArg, o: Reply<()>) returns (r: FfiResult)
      requires Valid() && Live(h)
      modifies this`calls
      ensures !Accepted(h, path, true) ==> r == InvalidArg() && calls == old(calls)
      ensures Accepted(h, path, true) ==>
                calls == old(calls) + [Invocation(h.id, FsyncCall(path.text))]
                && r == PlainResult(o)
    {
      if h.NullHandle? || path.NullArg? || path.NotUtf8? {
        return InvalidArg();
      }
      calls := calls + [Invocation(h.id, FsyncCall(path.text))];
      r := PlainResult(o);
    }

    // -------------------------------------------------------------------
    // Releasing what the bridge handed out
    // -------------------------------------------------------------------

    /** `agentfs_free_string`: null is ignored; a string the bridge handed
        out is released. */
    method FreeString(s: CStrPtr)
      requires Valid()
      requires s.HeapStr? ==> s.id in heap && heap[s.id].CText?
      modifies this`heap
      ensures Valid()
      ensures heap == if s.HeapStr? then old(heap) - {s.id} else old(heap)
    {
      if s.HeapStr? {
        heap := heap - {s.id};
      }
    }

    /** `agentfs_free_buffer`: a null pointer or a zero capacity (the null
        buffer, or the empty buffer `from_vec` makes) releases nothing;
        a buffer the bridge handed out is released. */
    method FreeBuffer(buf: FfiBuffer)
      requires Valid()
      requires buf.data.HeapPtr? && buf.capacity > 0 ==> buf.data.id in heap && heap[buf.data.id].Bytes?
      requires buf.data.Dangling? ==> buf.capacity == 0
      modifies this`heap
      ensures Valid()
      ensures heap == if buf.data.HeapPtr? && buf.capacity > 0 then old(heap) - {buf.data.id} else old(heap)
    {
      if buf.data != NullPtr && buf.capacity > 0 {
        heap := heap - {buf.data.id};
      }
    }

    // -------------------------------------------------------------------
    // The memory protocol, from a caller's side
    // -------------------------------------------------------------------

    /** Reading a file and freeing the buffer received, whatever the
        outcome, leaves no allocation behind. */
    method ReadFileThenFree(h: HandleArg, path: CStrArg, o: Outcome<seq<byte>>) returns (r: FfiResult)
      requires Valid() && Live(h)
      requires bufferOut == NullBuffer()
      modifies this`calls, this`bufferOut, this`heap, this`nextId
      ensures Valid()
      ensures heap == old(heap)
      ensures r.success ==> o.Value?
    {
      r := ReadFile(h, path, true, o);
      FreeBuffer(bufferOut);
      assert heap == old(heap) by {
        if bufferOut.data.HeapPtr? && bufferOut.capacity > 0 {
          assert o.Value? && |o.v| > 0;
        }
      }
    }

    /** Listing a directory and freeing the string received, whatever the
        outcome, leaves no allocation behind. */
    method ReaddirThenFree(h: HandleArg, path: CStrArg, o: Outcome<seq<string>>) returns (r: FfiResult)
      requires Valid() && Live(h)
      requires stringOut == NullStr
      modifies this`calls, this`stringOut, this`heap, this`nextId
      ensures Valid()
      ensures heap == old(heap)
      ensures r.success ==> o.Value? && !HasNul(o.v)
    {
      r := Readdir(h, path, true, o);
      FreeString(stringOut);
    }
  }
}
