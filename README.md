# agentfs: the FSKit bridge, `agentfs ps` and the FSKit mount

This project models three parts of agentfs in Dafny and proves properties of
the model.

- **The C boundary of the FSKit bridge** (`fskit-ffi/src/lib.rs`). These are
  the exported `agentfs_*` functions that the macOS FSKit extension calls.
  Every adapter follows the same pattern:
  - a null handle, path or out-slot, or a path that is not UTF-8, gives
    EINVAL with no filesystem call and no write; a null data pointer for
    `pwrite` and `write_file` is read as an empty slice instead;
  - otherwise it makes exactly one filesystem call and maps the answer to
    an `FFIResult` record. The lookups (`stat`, `lstat`, `pread`,
    `read_file`, `readdir`, `readlink`) give ENOENT for "no such entry" and
    EIO for an error. `pwrite`, `write_file`, `truncate`, `fsync` and
    `statfs` give EIO for every error. `mkdir`, `remove`, `rename` and
    `symlink` keep the filesystem's own errno when it has one;
  - the adapters with an out-slot write it with the answer on success.
    `stat`, `lstat` and `statfs` leave it untouched on failure. The buffer
    and string adapters write the null buffer or null string on failure.

  Variable-length answers are handed out as heap allocations that the
  caller must give back with `agentfs_free_buffer` or `agentfs_free_string`.
  The model is a class, `FfiBoundary.Boundary`. Its fields are the live
  allocations, the open handles, the caller's out-slots and the log of
  filesystem calls. The filesystem is an oracle: each adapter is given the
  answer its call returns. The directory-listing JSON is modelled
  separately in `DirJson`, with a strict reference decoder.
- **`agentfs ps`** (`cli/src/cmd/ps.rs`). It scans `~/.agentfs/run`,
  merges the scan with the set of mounted agent ids, keeps only the
  running sessions unless `-a` is given, sorts by id and prints an aligned
  table. The scan loop, the filter, the sort and the printing loop are
  methods. Each is proved against specification functions (`Candidates`,
  `Running`, `Row`, `Header`), and the properties are proved about those
  functions.
- **`agentfs mount` through FSKit** (`cli/src/cmd/mount_fskit.rs`). It runs
  a chain of checks that stops at the first failure: the macOS version,
  whether the extension is installed, the database path, and whether the
  mountpoint exists. It then runs `/sbin/mount` once and, in the
  foreground, waits until the mountpoint's device id changes. Everything
  the command learns from the system is an input: command outputs, the
  path resolver's answer, canonicalisation, existence of the mountpoint,
  and device ids.

Modules: `Common` (Option/Result, integer widths, `str::trim`, `contains`,
UTF-8 length, padding), `FfiTypes`, `DirJson`, `FfiBoundary`, `Sessions`
and `MountFskit`.

Three points of the code's behaviour that the model keeps exactly:

- On an invalid argument, an adapter returns EINVAL and writes no
  out-slot.
- `mount` checks the macOS version and the extension before it resolves
  the database path.
- The mount tool's stderr is reported trimmed.

## Model

| member | source | states |
|---|---|---|
| FfiTypes.NamedResultsFollowConvention | fskit-ffi/src/lib.rs:61-81 | `ok` is success with code 0. Success holds exactly when the code is 0. Not found, I/O error and invalid argument carry ENOENT (2), EIO (5) and EINVAL (22) and are pairwise distinct. `err(e)` carries `e` and is a failure |
| FfiTypes.StatsCopyIsVerbatim | fskit-ffi/src/lib.rs:229-239 | The stat record written to C is a field-by-field copy: each of its fields equals the field of the same name, in both directions, so copying there and back is the identity |
| FfiTypes.LookupResultIsFaithful | fskit-ffi/src/lib.rs:227-244 | For lookup-style calls, a caller reading the record recovers "found", "no such entry" or "error" exactly. Success holds exactly for a value. The filesystem's error detail is dropped |
| FfiTypes.MappingsCompared | fskit-ffi/src/lib.rs:549-559 | The plain mapping (pwrite, truncate, fsync, statfs) turns every error into EIO. The classified mapping (mkdir, remove, rename, symlink) keeps a filesystem errno. Both succeed exactly for a success, and they agree when there is no errno |
| FfiBoundary.Boundary.NullBufferIsInert | fskit-ffi/src/lib.rs:93-100 | The null buffer has a null pointer, length 0 and capacity 0: it shows the caller no bytes, and freeing it releases nothing |
| FfiBoundary.Boundary.FromVec | fskit-ffi/src/lib.rs:102-112 | Length and capacity equal the vector's length. An empty vector yields the non-null dangling pointer and allocates nothing. Any other vector yields one new allocation whose visible bytes are exactly the vector |
| FfiBoundary.Boundary.IntoRaw | fskit-ffi/src/lib.rs:508-512 | A NUL-free text becomes one new string allocation holding exactly that text |
| FfiBoundary.Boundary.Open | fskit-ffi/src/lib.rs:131-187 | A handle is returned exactly when the path is non-null UTF-8 and the runtime, the resolution, the database open and (when the database records a base path) the host directory all succeed. With a base path the handle is an overlay whose base is that path; without one it is the database alone. On failure nothing changes |
| FfiBoundary.Boundary.Close | fskit-ffi/src/lib.rs:195-199 | A null handle is ignored; otherwise exactly that handle is released |
| FfiBoundary.Boundary.Stat | fskit-ffi/src/lib.rs:212-245 | Invalid arguments give EINVAL, with no call and no slot write. Otherwise exactly one stat call is logged, the result is the lookup mapping, and the slot holds the copied record exactly when there was a value |
| FfiBoundary.Boundary.Lstat | fskit-ffi/src/lib.rs:252-285 | As `Stat`, with an lstat call |
| FfiBoundary.Boundary.PutBuffer | fskit-ffi/src/lib.rs:321-334 | A value is handed out as a new buffer. No entry or an error writes the null buffer and allocates nothing |
| FfiBoundary.Boundary.Pread | fskit-ffi/src/lib.rs:304-335 | Invalid arguments give EINVAL and change nothing. Otherwise one pread call with the given offset and size is logged. A value yields a buffer holding exactly the bytes read. Every failure writes the null buffer and allocates nothing |
| FfiBoundary.Boundary.ReadFile | fskit-ffi/src/lib.rs:379-408 | As `Pread`, for the whole file |
| FfiBoundary.Boundary.Pwrite | fskit-ffi/src/lib.rs:345-372 | Invalid arguments give EINVAL and no call. Otherwise one pwrite call is logged with the offset and the first `data_len` bytes (nothing for null data), and any error is EIO |
| FfiBoundary.Boundary.WriteFile | fskit-ffi/src/lib.rs:415-441 | As `Pwrite`, with a whole-file write |
| FfiBoundary.Boundary.Truncate | fskit-ffi/src/lib.rs:449-468 | Invalid arguments give EINVAL and no call. Otherwise one truncate call with the size is logged, and any error is EIO |
| FfiBoundary.Boundary.Readdir | fskit-ffi/src/lib.rs:481-528 | Invalid arguments give EINVAL and change nothing. Otherwise one readdir call is logged. When no name contains NUL, a listing yields success and a new string holding the JSON encoding of the names. A NUL in any name yields EIO. No entry gives ENOENT and an error gives EIO. Every failure writes null and allocates nothing |
| FfiBoundary.Boundary.Mkdir | fskit-ffi/src/lib.rs:535-560 | Invalid arguments give EINVAL and no call. Otherwise one mkdir call is logged, and a filesystem error keeps its own errno |
| FfiBoundary.Boundary.Remove | fskit-ffi/src/lib.rs:567-591 | As `Mkdir`, with a remove call |
| FfiBoundary.Boundary.Rename | fskit-ffi/src/lib.rs:598-627 | Both paths must be non-null UTF-8, or the result is EINVAL with no call. Otherwise one rename call from the first path to the second is logged, and a filesystem error keeps its errno |
| FfiBoundary.Boundary.Symlink | fskit-ffi/src/lib.rs:642-671 | As `Rename`, with a symlink call from target to link path |
| FfiBoundary.Boundary.Readlink | fskit-ffi/src/lib.rs:678-713 | Invalid arguments give EINVAL and change nothing. A NUL-free target yields success and a new string holding it. A target with NUL yields EIO. No entry gives ENOENT and an error gives EIO. Every failure writes null and allocates nothing |
| FfiBoundary.Boundary.Statfs | fskit-ffi/src/lib.rs:724-744 | A null handle or slot gives EINVAL and no call. Otherwise one statfs call is logged, any error is EIO, and the slot is written with both counters exactly on success |
| FfiBoundary.Boundary.Fsync | fskit-ffi/src/lib.rs:751-769 | Invalid arguments give EINVAL and no call. Otherwise one fsync call is logged, and any error is EIO |
| FfiBoundary.Boundary.FreeString | fskit-ffi/src/lib.rs:780-784 | Null is ignored; a string the bridge handed out is released, and nothing else is |
| FfiBoundary.Boundary.FreeBuffer | fskit-ffi/src/lib.rs:791-795 | A null pointer or zero capacity releases nothing (this covers the null buffer and the empty `from_vec` buffer); otherwise exactly that allocation is released |
| FfiBoundary.Boundary.ReadFileThenFree | fskit-ffi/src/lib.rs:816-826 | Reading a file and then freeing the buffer received leaves the heap exactly as it was, whatever the outcome |
| FfiBoundary.Boundary.ReaddirThenFree | fskit-ffi/src/lib.rs:481-528 | Listing a directory and then freeing the string received leaves the heap as it was. Success implies a listing with no NUL in any name |
| DirJson.DecodeEncode | fskit-ffi/src/lib.rs:499-506 | Decoding the listing JSON gives back the names exactly when no name contains a control character, which JSON forbids unescaped |
| DirJson.EscapeIsPerCharacter | fskit-ffi/src/lib.rs:503 | The two chained replacements escape each character on its own: a backslash becomes two, a quote becomes backslash-quote, anything else stays |
| DirJson.ReplacementOrderMatters | fskit-ffi/src/lib.rs:503 | Replacing backslashes first, as the code does, is what makes the escaping correct. The opposite order would double the backslash added for a quote |
| DirJson.ParseQuoted | fskit-ffi/src/lib.rs:503 | A quoted, escaped name without control characters is read back as the name, and the rest of the text is left unconsumed |
| DirJson.ParseItemsEncoded | fskit-ffi/src/lib.rs:499-506 | A non-empty comma-joined list of quoted names without control characters, followed by `]`, is read back as exactly those names |
| DirJson.ParseItemsEncodedControl | fskit-ffi/src/lib.rs:499-506 | If any name contains a control character, the strict reader rejects the list |
| DirJson.EmptyListingEncoding | fskit-ffi/src/lib.rs:499-506 | An empty directory is encoded as `[]`, which reads back as the empty list |
| DirJson.EscapeExamples | fskit-ffi/src/lib.rs:503 | `a` and `b c` are unchanged by escaping; `d"e` becomes `d\"e` |
| DirJson.ListingExampleRoundTrip | fskit-ffi/src/lib.rs:499-506 | The listing `a`, `b c`, `d"e` reads back unchanged |
| DirJson.NulInPayload | fskit-ffi/src/lib.rs:508-517 | The JSON contains a NUL exactly when some name does, so `CString::new` fails exactly then |
| Common.TrimShape | cli/src/cmd/mount_fskit.rs:125-126 | `trim` returns the infix left after removing only white space at both ends, and the result has no white space at either end |
| Common.Utf8Len | cli/src/cmd/ps.rs:85-96 | The UTF-8 byte length of a string is between its number of characters and four times that |
| Common.PadRight | cli/src/cmd/ps.rs:99-126 | Left-aligned padding to a width keeps the text as a prefix, fills the rest with spaces, and leaves a longer text unchanged |
| Sessions.JoinInjective | cli/src/cmd/ps.rs:41-48 | Joining a name onto a base loses nothing: two names that give the same joined path are the same name |
| Sessions.MountPathInjective | cli/src/cmd/ps.rs:47-48 | Distinct session ids (non-empty, without a `/`) get distinct mountpoints `<run>/<id>/mnt` |
| Sessions.CandidatesMembership | cli/src/cmd/ps.rs:34-62 | A session is collected exactly when some directory entry contributes it |
| Sessions.CollectedSessionShape | cli/src/cmd/ps.rs:39-56 | Every collected session comes from a directory that holds `delta.db` and is named by its id. It has a mountpoint exactly when its id is mounted, and that mountpoint is `<run>/<id>/mnt` |
| Sessions.EveryQualifyingEntryIsCollected | cli/src/cmd/ps.rs:39-56 | Every directory with a `delta.db` and a UTF-8 name is listed |
| Sessions.RunningMembership | cli/src/cmd/ps.rs:65-67 | The default filter keeps exactly the sessions that have a mountpoint |
| Sessions.RunningIdempotent | cli/src/cmd/ps.rs:65-67 | Filtering twice is the same as filtering once |
| Sessions.RunningKeepsRunning | cli/src/cmd/ps.rs:65-67 | Filtering a list of running sessions changes nothing |
| Sessions.Collect | cli/src/cmd/ps.rs:34-62 | The scan loop pushes exactly the specified sessions, in scan order |
| Sessions.RetainRunning | cli/src/cmd/ps.rs:65-67 | The retain loop keeps exactly the running sessions, in order |
| Sessions.Insert | cli/src/cmd/ps.rs:70 | Inserting into an id-sorted list keeps it sorted and adds exactly one session |
| Sessions.SortById | cli/src/cmd/ps.rs:70 | The result is sorted by id and is a permutation of the input |
| Sessions.SortedIsUnique | cli/src/cmd/ps.rs:70 | Two id-sorted orderings of the same sessions with distinct ids are identical, so the printed order is determined |
| Sessions.LexLeTotal | cli/src/cmd/ps.rs:70 | Any two ids are comparable |
| Sessions.LexLeAntisym | cli/src/cmd/ps.rs:70 | Ids that compare both ways are equal |
| Sessions.IdWidth | cli/src/cmd/ps.rs:85-90 | The id column is at least 10 wide and at least as wide as every id's byte length. Its width is 10 or the byte length of some id |
| Sessions.MountWidth | cli/src/cmd/ps.rs:91-96 | The same for mountpoints, where a missing mountpoint counts as 1 |
| Sessions.RowFits | cli/src/cmd/ps.rs:85-96 | Every field fits its column |
| Sessions.RowLayout | cli/src/cmd/ps.rs:109-126 | A row has the id at offset 0, the mountpoint (or `-`) two spaces after the id column, and the status two spaces after the mountpoint column |
| Sessions.HeaderLayout | cli/src/cmd/ps.rs:99-106 | The header's titles sit at the same offsets as the row fields |
| Sessions.StatusMatchesMountpoint | cli/src/cmd/ps.rs:110-115 | The status is `running` exactly for a mounted session and `stopped` exactly for the others |
| Sessions.Render | cli/src/cmd/ps.rs:98-126 | One line for the header, then one row per session in order, all with the same column widths |
| Sessions.Ps | cli/src/cmd/ps.rs:22-129 | The listed sessions are sorted by id and are a permutation of the collected sessions, filtered unless `-a` is given. An empty list prints the single message for the mode; otherwise the header and one row per session are printed |
| Sessions.ExampleScan | cli/src/cmd/ps.rs:34-62 | Scanning s3, s1, s2 with only s2 mounted collects them in that order, with only s2 running |
| Sessions.DefaultListingExample | cli/src/cmd/ps.rs:65-67 | That scan lists only s2 by default |
| Sessions.FullListingExample | cli/src/cmd/ps.rs:70 | With `-a`, any sorted listing of that scan is s1 stopped, s2 running, s3 stopped |
| MountFskit.ParseDecimal | cli/src/cmd/mount_fskit.rs:129 | Every 32-bit number's decimal text parses back to that number, with or without a leading `+` |
| MountFskit.ParseRejects | cli/src/cmd/mount_fskit.rs:129-130 | A leading `-`, an empty text, a bare `+` and values of 2^32 or more do not parse |
| MountFskit.PrefixBefore | cli/src/cmd/mount_fskit.rs:127-128 | The first `.`-separated field is a prefix, contains no dot, and is followed by a dot or by the end |
| MountFskit.MajorVersionOfRelease | cli/src/cmd/mount_fskit.rs:115-134 | A one-line release `<major>.<rest>` reads as `major`, and FSKit is supported exactly when `major` is at least 26 |
| MountFskit.UnreadableVersionIsUnsupported | cli/src/cmd/mount_fskit.rs:115-134 | An unparsable first field counts as 0 and so is unsupported. An unsuccessful `sw_vers` means "unsupported" whatever it printed |
| MountFskit.OldReleaseStopsFirst | cli/src/cmd/mount_fskit.rs:39-44 | On macOS 15.6.1 the command fails at the first check with the unsupported-version error |
| MountFskit.FirstFskitRelease | cli/src/cmd/mount_fskit.rs:115-134 | macOS 26.0 passes the version check |
| MountFskit.ExtensionInstalledIff | cli/src/cmd/mount_fskit.rs:137-150 | The extension counts as installed exactly when the bundle id or the name occurs in the listing, whatever the exit status. A command that cannot run means "not installed" |
| MountFskit.ListingLineIsFound | cli/src/cmd/mount_fskit.rs:145-146 | Either name anywhere in the listing is enough |
| MountFskit.ResolveDbPath | cli/src/cmd/mount_fskit.rs:104-112 | It succeeds exactly when the target has a path that canonicalises, and the result is the canonical path. An ephemeral target gives the ephemeral error |
| MountFskit.ResourceUrlRoundTrip | cli/src/cmd/mount_fskit.rs:72 | The `file://` locator reads back as the path it was built from, so two paths never share a locator |
| MountFskit.MountArgv | cli/src/cmd/mount_fskit.rs:76-79 | `/sbin/mount` receives `-t agentfs`, the locator of the database path and the mountpoint, in that order |
| MountFskit.MessagesCarryDetail | cli/src/cmd/mount_fskit.rs:65-91 | The mount-failure message contains the tool's stderr, trimmed. The missing-mountpoint message names the mountpoint |
| MountFskit.WaitOutcomeIsDetermined | cli/src/cmd/mount_fskit.rs:162-174 | The polls decide how the wait ends: no two outcomes fit the same polls |
| MountFskit.WaitForUnmount | cli/src/cmd/mount_fskit.rs:153-178 | Unreadable metadata at the start is an error. Otherwise the wait ends at the first poll whose metadata is unreadable or whose device id differs, and no earlier poll ends it. If no poll ends it, the mountpoint is still mounted |
| MountFskit.PlanInStageOrder | cli/src/cmd/mount_fskit.rs:37-101 | Every prefix of the plan (checks, mount, wait) takes each action at most once, in order |
| MountFskit.PreflightFailsFast | cli/src/cmd/mount_fskit.rs:37-67 | The first failing check decides the error. An old macOS is reported whatever the extension and the path are. A missing extension is reported whatever the path is. Passing means every check passed, and the path is the canonical one |
| MountFskit.RunPreflight | cli/src/cmd/mount_fskit.rs:37-67 | The checks give the specified outcome. Their trace is the plan cut off at the check that failed, or all four checks |
| MountFskit.Mount | cli/src/cmd/mount_fskit.rs:37-101 | A failed check is the error, and nothing after that check runs. When every check passes, `/sbin/mount` runs exactly once, with the locator of the canonical path. A failed run reports the tool's stderr. After a successful run, the command succeeds at once in the background. In the foreground it fails if the mountpoint's metadata cannot be read; otherwise it succeeds with the outcome the polls determine |

## Left out

- Tokio runtimes, `block_on` and async execution: each filesystem call is one atomic step whose answer is an input.
- The SQL query for the overlay base path and the parsing of its row (fskit-ffi/src/lib.rs:155-172): the model takes its result as `overlayBase`.
- `AgentFSOptions::resolve`, `AgentFS::open`, `HostFS::new`, `FsError::to_errno`, `get_mounted_agents` and `std::fs::canonicalize` are foreign code. Their answers are inputs.
- Process spawning (`sw_vers`, `systemextensionsctl`, `/sbin/mount`), `sleep`, file metadata and the existence checks are inputs too.
- `eprintln!` progress messages are not modelled. Nor are errors from `writeln!`: printed lines are returned as a sequence.
- `String::from_utf8_lossy` and `to_string_lossy`: the outputs and paths are taken to be text already.
- MountFskit.Message: the texts of errors raised by the operating system and by the path resolver are placeholders or the foreign reason, because those texts come from code outside this model.
- MountFskit.WaitForUnmount: the endless poll loop is modelled over a finite sequence of polls. The outcome "still mounted" stands for a loop that the user ends by interrupting the process.
- Sessions.SortById: the sort's stability is not stated. Ids within one listing are distinct, so any sorted order is the same (`SortedIsUnique`).
- `FfiBoundary.Boundary`: raw pointers are modelled as ids in a map. Use after free and double free are excluded by preconditions; their undefined behaviour is not modelled.
- `cli/src/cmd/init.rs`, `cli/src/cmd/mod.rs`, the build script and the SDK and test sources are not part of this model.
