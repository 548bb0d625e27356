/** `agentfs ps`: the sandbox sessions found under `~/.agentfs/run`, merged
    with the set of agent ids the OS mount table reports as mounted,
    optionally restricted to the running ones, sorted by id and printed as
    a table. The directory scan and the mount table are inputs. */
module Sessions {
  import opened Common

  /** One entry of the run directory, as far as the listing looks at it.
      `fileName` is None when the name is not valid UTF-8. */
  datatype DirEntry = DirEntry(fileName: Option<string>, isDir: bool, hasDeltaDb: bool)

  datatype SessionInfo = SessionInfo(id: string, mountpoint: Option<string>)

  // ---------------------------------------------------------------------
  // Paths
  // ---------------------------------------------------------------------

  /** `PathBuf::join` with a relative component: one separator between the
      two parts, none added after an empty base or a trailing `/`. */
  function Join(base: string, name: string): (p: string)
    ensures |name| <= |p|
    ensures p[..|p| - |name|] == (if base == [] || base[|base| - 1] == '/' then base else base + "/")
    ensures p[|p| - |name|..] == name
  {
    if base == [] || base[|base| - 1] == '/' then base + name else base + "/" + name
  }

  /** `run_dir`: the home directory (or `.` when there is none) followed by
      `.agentfs/run`. */
  function RunDir(home: Option<string>): string
  {
    Join(Join(if home.Some? then home.value else ".", ".agentfs"), "run")
  }

  /** Where a running session's filesystem is mounted. */
  function MountPath(runDir: string, id: string): string
  {
    Join(Join(runDir, id), "mnt")
  }

  /** A name as a directory entry has one: not empty and without `/`. */
  predicate IsFileName(name: string)
  {
    |name| > 0 && '/' !in name
  }

  /** Joining to one base loses nothing: different names give different
      paths. */
  lemma JoinInjective(base: string, n1: string, n2: string)
    requires Join(base, n1) == Join(base, n2)
    ensures n1 == n2
  {
    var p := Join(base, n1);
    var pre := if base == [] || base[|base| - 1] == '/' then base else base + "/";
    assert p == pre + n1 && p == pre + n2;
    assert n1 == p[|pre|..] == n2;
  }

  /** Sessions with different ids are mounted at different paths. */
  lemma MountPathInjective(runDir: string, id1: string, id2: string)
    requires IsFileName(id1) && IsFileName(id2)
    requires MountPath(runDir, id1) == MountPath(runDir, id2)
    ensures id1 == id2
  {
    var a, b := Join(runDir, id1), Join(runDir, id2);
    assert a[|a| - 1] == id1[|id1| - 1] && a[|a| - 1] != '/';
    assert b[|b| - 1] == id2[|id2| - 1] && b[|b| - 1] != '/';
    var m := MountPath(runDir, id1);
    assert m == a + "/" + "mnt" && m == b + "/" + "mnt";
    assert a == m[..|m| - 4] == b;
    JoinInjective(runDir, id1, id2);
  }

  // ---------------------------------------------------------------------
  // Collecting, filtering, ordering: the specification
  // ---------------------------------------------------------------------

  /** The session an entry contributes: only a directory holding a
      `delta.db` whose name is UTF-8; mounted exactly when its id is in the
      mounted set. Unreadable entries (None) contribute nothing. */
  function SessionOf(runDir: string, mounted: set<string>, e: Option<DirEntry>): Option<SessionInfo>
  {
    if e.Some? && e.value.isDir && e.value.hasDeltaDb && e.value.fileName.Some? then
      var id := e.value.fileName.value;
      Some(SessionInfo(id, if id in mounted then Some(MountPath(runDir, id)) else None))
    else None
  }

  /** The sessions of a scan, in scan order. */
  function Candidates(runDir: string, mounted: set<string>, entries: seq<Option<DirEntry>>): seq<SessionInfo>
  {
    if entries == [] then []
    else
      var prev := Candidates(runDir, mounted, entries[..|entries| - 1]);
      match SessionOf(runDir, mounted, entries[|entries| - 1])
      case Some(s) => prev + [s]
      case None => prev
  }

  /** No session is collected when the run directory is missing or cannot
      be listed. */
  function Collected(runDir: string, mounted: set<string>, runDirExists: bool,
                     listing: Option<seq<Option<DirEntry>>>): seq<SessionInfo>
  {
    if runDirExists && listing.Some? then Candidates(runDir, mounted, listing.value) else []
  }

  /** The sessions that have a mountpoint, in their order. */
  function Running(ss: seq<SessionInfo>): seq<SessionInfo>
  {
    if ss == [] then []
    else
      var prev := Running(ss[..|ss| - 1]);
      if ss[|ss| - 1].mountpoint.Some? then prev + [ss[|ss| - 1]] else prev
  }

  /** What the listing shows before it is sorted. */
  function Selected(ss: seq<SessionInfo>, showAll: bool): seq<SessionInfo>
  {
    if showAll then ss else Running(ss)
  }

  /** Lexicographic order on code points, which is the byte order of the
      UTF-8 encodings `String::cmp` compares. */
  predicate LexLe(a: string, b: string)
  {
    a == [] || (b != [] && (a[0] < b[0] || (a[0] == b[0] && LexLe(a[1..], b[1..]))))
  }

  predicate SortedById(ss: seq<SessionInfo>)
  {
    forall i, j :: 0 <= i < j < |ss| ==> LexLe(ss[i].id, ss[j].id)
  }

  /** No two sessions share an id, as no two entries of one directory share
      a name. */
  predicate DistinctIds(ss: seq<SessionInfo>)
  {
    forall i, j :: 0 <= i < j < |ss| ==> ss[i].id != ss[j].id
  }

  lemma {:induction false} LexLeTotal(a: string, b: string)
    ensures LexLe(a, b) || LexLe(b, a)
    decreases |a|
  {
    if a != [] && b != [] && a[0] == b[0] {
      LexLeTotal(a[1..], b[1..]);
    }
  }

  lemma {:induction false} LexLeTrans(a: string, b: string, c: string)
    requires LexLe(a, b) && LexLe(b, c)
    ensures LexLe(a, c)
    decreases |a|
  {
    if a != [] && a[0] == b[0] && b[0] == c[0] {
      LexLeTrans(a[1..], b[1..], c[1..]);
    }
  }

  lemma {:induction false} LexLeAntisym(a: string, b: string)
    requires LexLe(a, b) && LexLe(b, a)
    ensures a == b
    decreases |a|
  {
    if a != [] {
      LexLeAntisym(a[1..], b[1..]);
      assert a == [a[0]] + a[1..] && b == [b[0]] + b[1..];
    }
  }

  // ---------------------------------------------------------------------
  // Properties of the specification
  // ---------------------------------------------------------------------

  /** A session is collected exactly when some entry contributes it. */
  lemma {:induction false} CandidatesMembership(runDir: string, mounted: set<string>,
                                                entries: seq<Option<DirEntry>>, s: SessionInfo)
    ensures s in Candidates(runDir, mounted, entries)
            <==> exists k :: 0 <= k < |entries| && SessionOf(runDir, mounted, entries[k]) == Some(s)
    decreases |entries|
  {
    if entries != [] {
      var init := entries[..|entries| - 1];
      CandidatesMembership(runDir, mounted, init, s);
      if exists k :: 0 <= k < |init| && SessionOf(runDir, mounted, init[k]) == Some(s) {
        var k :| 0 <= k < |init| && SessionOf(runDir, mounted, init[k]) == Some(s);
        assert entries[k] == init[k];
      }
      if exists k :: 0 <= k < |entries| && SessionOf(runDir, mounted, entries[k]) == Some(s) {
        var k :| 0 <= k < |entries| && SessionOf(runDir, mounted, entries[k]) == Some(s);
        if k < |init| {
          assert init[k] == entries[k];
        }
      }
    }
  }

  /** Every collected session comes from a directory with a `delta.db`
      named by its id, and it has a mountpoint exactly when its id is
      mounted, that mountpoint being `<run>/<id>/mnt`. */
  lemma CollectedSessionShape(runDir: string, mounted: set<string>, entries: seq<Option<DirEntry>>,
                              s: SessionInfo)
    requires s in Candidates(runDir, mounted, entries)
    ensures exists k :: 0 <= k < |entries| && entries[k].Some? && entries[k].value.isDir
                        && entries[k].value.hasDeltaDb && entries[k].value.fileName == Some(s.id)
    ensures s.mountpoint.Some? <==> s.id in mounted
    ensures s.mountpoint.Some? ==> s.mountpoint.value == MountPath(runDir, s.id)
  {
    CandidatesMembership(runDir, mounted, entries, s);
    var k :| 0 <= k < |entries| && SessionOf(runDir, mounted, entries[k]) == Some(s);
    assert entries[k].Some? && entries[k].value.fileName == Some(s.id);
  }

  /** Every qualifying entry is listed. */
  lemma EveryQualifyingEntryIsCollected(runDir: string, mounted: set<string>,
                                        entries: seq<Option<DirEntry>>, k: nat)
    requires k < |entries| && entries[k].Some? && entries[k].value.isDir
             && entries[k].value.hasDeltaDb && entries[k].value.fileName.Some?
    ensures SessionOf(runDir, mounted, entries[k]).value in Candidates(runDir, mounted, entries)
  {
    CandidatesMembership(runDir, mounted, entries, SessionOf(runDir, mounted, entries[k]).value);
  }

  /** The running filter keeps exactly the sessions with a mountpoint. */
  lemma {:induction false} RunningMembership(ss: seq<SessionInfo>, s: SessionInfo)
    ensures s in Running(ss) <==> s in ss && s.mountpoint.Some?
    decreases |ss|
  {
    if ss != [] {
      var init := ss[..|ss| - 1];
      RunningMembership(init, s);
      assert ss == init + [ss[|ss| - 1]];
    }
  }

  /** One filter is as good as two. */
  lemma {:induction false} RunningIdempotent(ss: seq<SessionInfo>)
    ensures Running(Running(ss)) == Running(ss)
    decreases |ss|
  {
    if ss != [] {
      var init := ss[..|ss| - 1];
      RunningIdempotent(init);
      var r := Running(init);
      if ss[|ss| - 1].mountpoint.Some? {
        var r2 := r + [ss[|ss| - 1]];
        assert r2[..|r2| - 1] == r;
      }
    }
  }

  /** Filtering a list of running sessions changes nothing. */
  lemma {:induction false} RunningKeepsRunning(ss: seq<SessionInfo>)
    requires forall i :: 0 <= i < |ss| ==> ss[i].mountpoint.Some?
    ensures Running(ss) == ss
    decreases |ss|
  {
    if ss != [] {
      var init := ss[..|ss| - 1];
      assert forall i :: 0 <= i < |init| ==> init[i].mountpoint.Some? by {
        forall i | 0 <= i < |init| ensures init[i].mountpoint.Some? {
          assert init[i] == ss[i];
        }
      }
      RunningKeepsRunning(init);
      assert ss == init + [ss[|ss| - 1]];
    }
  }

  lemma SortedTail(a: seq<SessionInfo>)
    requires a != [] && SortedById(a)
    ensures SortedById(a[1..])
  {
    forall i, j | 0 <= i < j < |a| - 1 ensures LexLe(a[1..][i].id, a[1..][j].id) {
      assert a[1..][i] == a[i + 1] && a[1..][j] == a[j + 1];
    }
  }

  lemma DistinctTail(a: seq<SessionInfo>)
    requires a != [] && DistinctIds(a)
    ensures DistinctIds(a[1..])
  {
    forall i, j | 0 <= i < j < |a| - 1 ensures a[1..][i].id != a[1..][j].id {
      assert a[1..][i] == a[i + 1] && a[1..][j] == a[j + 1];
    }
  }

  lemma MultisetTail<T>(a: seq<T>, b: seq<T>)
    requires a != [] && b != [] && a[0] == b[0] && multiset(a) == multiset(b)
    ensures multiset(a[1..]) == multiset(b[1..])
  {
    assert a == [a[0]] + a[1..] && b == [b[0]] + b[1..];
    assert multiset(a) == multiset{a[0]} + multiset(a[1..]);
    assert multiset(b) == multiset{b[0]} + multiset(b[1..]);
    assert multiset(a[1..]) == multiset(a) - multiset{a[0]};
  }

  /** Both orderings start with the session of least id. */
  lemma SameHead(a: seq<SessionInfo>, b: seq<SessionInfo>)
    requires a != [] && SortedById(a) && SortedById(b) && multiset(a) == multiset(b) && DistinctIds(a)
    ensures b != [] && a[0] == b[0]
  {
    assert a[0] in multiset(b);
    var k :| 0 <= k < |b| && b[k] == a[0];
    assert b[0] in multiset(a);
    var m :| 0 <= m < |a| && a[m] == b[0];
    if m != 0 {
      if k != 0 {
        assert LexLe(a[0].id, a[m].id);
        assert LexLe(b[0].id, b[k].id);
        LexLeAntisym(a[0].id, a[m].id);
      }
      assert false;
    }
  }

  /** Two sorted orderings of the same sessions with distinct ids are the
      same sequence: the order of the listing is fully determined. */
  lemma {:induction false} SortedIsUnique(a: seq<SessionInfo>, b: seq<SessionInfo>)
    requires SortedById(a) && SortedById(b) && multiset(a) == multiset(b) && DistinctIds(a)
    ensures a == b
    decreases |a|
  {
    if a == [] {
      assert |b| == |multiset(b)| == 0;
    } else {
      SameHead(a, b);
      SortedTail(a);
      SortedTail(b);
      DistinctTail(a);
      MultisetTail(a, b);
      SortedIsUnique(a[1..], b[1..]);
    }
  }

  // ---------------------------------------------------------------------
  // Sorting by id
  // ---------------------------------------------------------------------

  /** Places `x` after every session whose id is not greater, so equal ids
      keep their order as `sort_by` (a stable sort) keeps them. */
  method Insert(r: seq<SessionInfo>, x: SessionInfo) returns (t: seq<SessionInfo>)
    requires SortedById(r)
    ensures SortedById(t)
    ensures multiset(t) == multiset(r) + multiset{x}
  {
    var j := 0;
    while j < |r| && LexLe(r[j].id, x.id)
      invariant 0 <= j <= |r|
      invariant forall k :: 0 <= k < j ==> LexLe(r[k].id, x.id)
    {
      j := j + 1;
    }
    if j < |r| {
      LexLeTotal(r[j].id, x.id);
      forall k | j <= k < |r| ensures LexLe(x.id, r[k].id) {
        if k > j {
          LexLeTrans(x.id, r[j].id, r[k].id);
        }
      }
    }
    t := r[..j] + [x] + r[j..];
    assert r == r[..j] + r[j..];
    SortedSplice(r, j, x);
  }

  /** Putting `x` between a prefix of no greater ids and a suffix of no
      smaller ids keeps a sorted sequence sorted. */
  lemma SortedSplice(r: seq<SessionInfo>, j: nat, x: SessionInfo)
    requires j <= |r| && SortedById(r)
    requires forall k :: 0 <= k < j ==> LexLe(r[k].id, x.id)
    requires forall k :: j <= k < |r| ==> LexLe(x.id, r[k].id)
    ensures SortedById(r[..j] + [x] + r[j..])
  {
    var t := r[..j] + [x] + r[j..];
    forall p, q | 0 <= p < q < |t| ensures LexLe(t[p].id, t[q].id) {
      if q < j {
        assert t[p] == r[p] && t[q] == r[q];
      } else if q == j {
        assert t[p] == r[p] && t[q] == x;
      } else if p == j {
        assert t[q] == r[q - 1];
      } else if p < j {
        assert t[p] == r[p] && t[q] == r[q - 1];
        LexLeTrans(r[p].id, x.id, r[q - 1].id);
      } else {
        assert t[p] == r[p - 1] && t[q] == r[q - 1];
      }
    }
  }

  /** `sessions.sort_by(|a, b| a.id.cmp(&b.id))`. */
  method SortById(s: seq<SessionInfo>) returns (r: seq<SessionInfo>)
    ensures SortedById(r)
    ensures multiset(r) == multiset(s)
  {
    r := [];
    var i := 0;
    while i < |s|
      invariant 0 <= i <= |s|
      invariant SortedById(r)
      invariant multiset(r) == multiset(s[..i])
    {
      assert s[..i + 1] == s[..i] + [s[i]];
      r := Insert(r, s[i]);
      i := i + 1;
    }
    assert s[..i] == s;
  }

  // ---------------------------------------------------------------------
  // Table layout
  // ---------------------------------------------------------------------

  function Max(a: nat, b: nat): nat
  {
    if a < b then b else a
  }

  /** The id column: as wide as the longest id in bytes (`String::len`),
      and never narrower than 10. */
  function IdWidth(ss: seq<SessionInfo>): (w: nat)
    ensures w >= 10
    ensures forall i :: 0 <= i < |ss| ==> Utf8Len(ss[i].id) <= w
    ensures w == 10 || exists i :: 0 <= i < |ss| && Utf8Len(ss[i].id) == w
  {
    if ss == [] then 10
    else
      var rest := IdWidth(ss[1..]);
      assert forall i :: 1 <= i < |ss| ==> ss[i] == ss[1..][i - 1];
      Max(Utf8Len(ss[0].id), rest)
  }

  /** The width a session claims in the mountpoint column: its mountpoint's
      byte length, 1 for the `-` of a stopped session. */
  function MountLen(s: SessionInfo): nat
  {
    if s.mountpoint.Some? then Utf8Len(s.mountpoint.value) else 1
  }

  /** The mountpoint column: as wide as the widest entry, never narrower
      than 10. */
  function MountWidth(ss: seq<SessionInfo>): (w: nat)
    ensures w >= 10
    ensures forall i :: 0 <= i < |ss| ==> MountLen(ss[i]) <= w
    ensures w == 10 || exists i :: 0 <= i < |ss| && MountLen(ss[i]) == w
  {
    if ss == [] then 10
    else
      var rest := MountWidth(ss[1..]);
      assert forall i :: 1 <= i < |ss| ==> ss[i] == ss[1..][i - 1];
      Max(MountLen(ss[0]), rest)
  }

  function MountText(s: SessionInfo): string
  {
    if s.mountpoint.Some? then s.mountpoint.value else "-"
  }

  function Status(s: SessionInfo): string
  {
    if s.mountpoint.Some? then "running" else "stopped"
  }

  /** Three left-aligned columns separated by two spaces. */
  function Line(first: string, idWidth: nat, second: string, mountWidth: nat, third: string): string
  {
    PadRight(first, idWidth) + "  " + PadRight(second, mountWidth) + "  " + third
  }

  function Header(idWidth: nat, mountWidth: nat): string
  {
    Line("SESSION ID", idWidth, "MOUNTPOINT", mountWidth, "STATUS")
  }

  function Row(s: SessionInfo, idWidth: nat, mountWidth: nat): string
  {
    Line(s.id, idWidth, MountText(s), mountWidth, Status(s))
  }

  /** The single line printed when nothing is listed. */
  function EmptyMessage(showAll: bool, runDir: string): string
  {
    if showAll then "No sandbox sessions found in " + runDir
    else "No running sandbox sessions. Use -a to show all sessions."
  }

  /** Where the columns of a line begin: the first field at 0, the second
      after the first column and two spaces, the third after the second. */
  lemma LineLayout(first: string, idWidth: nat, second: string, mountWidth: nat, third: string)
    requires |first| <= idWidth && |second| <= mountWidth
    ensures var l := Line(first, idWidth, second, mountWidth, third);
            var m := idWidth + 2;
            var t := m + mountWidth + 2;
            |l| == t + |third|
            && l[..|first|] == first && l[idWidth..m] == "  "
            && l[m..m + |second|] == second && l[m + mountWidth..t] == "  "
            && l[t..] == third
  {
    var a := PadRight(first, idWidth);
    var b := PadRight(second, mountWidth);
    var l := Line(first, idWidth, second, mountWidth, third);
    assert l == a + "  " + b + "  " + third;
    assert l[..|first|] == a[..|first|];
    var m := idWidth + 2;
    assert l[m..m + |second|] == b[..|second|];
  }

  /** The character count of a string never exceeds its UTF-8 length, so a
      column sized in bytes is wide enough in characters. */
  lemma RowFits(ss: seq<SessionInfo>, i: nat)
    requires i < |ss|
    ensures |ss[i].id| <= IdWidth(ss)
    ensures |MountText(ss[i])| <= MountWidth(ss)
  {
  }

  /** A row shows the id, the mountpoint (or `-`) and the status at fixed
      offsets: at 0, after the id column and two spaces, and after the
      mountpoint column and two more. With the widths of the table
      (`RowFits`), this holds for every row. */
  lemma RowLayout(s: SessionInfo, idWidth: nat, mountWidth: nat)
    requires |s.id| <= idWidth && |MountText(s)| <= mountWidth
    ensures var row := Row(s, idWidth, mountWidth);
            |row| == idWidth + mountWidth + 4 + |Status(s)|
            && row[..|s.id|] == s.id
            && row[idWidth + 2..idWidth + 2 + |MountText(s)|] == MountText(s)
            && row[idWidth + mountWidth + 4..] == Status(s)
  {
    LineLayout(s.id, idWidth, MountText(s), mountWidth, Status(s));
  }

  /** The header's titles sit at the same offsets as the row fields. */
  lemma HeaderLayout(idWidth: nat, mountWidth: nat)
    requires idWidth >= 10 && mountWidth >= 10
    ensures var head := Header(idWidth, mountWidth);
            head[..10] == "SESSION ID" && head[idWidth + 2..idWidth + 12] == "MOUNTPOINT"
            && head[idWidth + mountWidth + 4..] == "STATUS"
  {
    LineLayout("SESSION ID", idWidth, "MOUNTPOINT", mountWidth, "STATUS");
  }

  /** The status column says "running" exactly for a mounted session, and
      "-" marks exactly the stopped ones. */
  lemma StatusMatchesMountpoint(s: SessionInfo)
    ensures Status(s) == "running" <==> s.mountpoint.Some?
    ensures Status(s) == "stopped" <==> s.mountpoint.None?
    ensures s.mountpoint.Some? ==> MountText(s) == s.mountpoint.value
  {
  }

  // ---------------------------------------------------------------------
  // The command
  // ---------------------------------------------------------------------

  /** The scan loop: one session per qualifying entry, pushed in scan order. */
  method Collect(runDir: string, mounted: set<string>, entries: seq<Option<DirEntry>>)
    returns (found: seq<SessionInfo>)
    ensures found == Candidates(runDir, mounted, entries)
  {
    found := [];
    var i := 0;
    while i < |entries|
      invariant 0 <= i <= |entries|
      invariant found == Candidates(runDir, mounted, entries[..i])
    {
      assert entries[..i + 1][..i] == entries[..i];
      var e := entries[i];
      if e.Some? && e.value.isDir && e.value.hasDeltaDb && e.value.fileName.Some? {
        var id := e.value.fileName.value;
        var mountpoint := if id in mounted then Some(MountPath(runDir, id)) else None;
        found := found + [SessionInfo(id, mountpoint)];
      }
      i := i + 1;
    }
    assert entries[..i] == entries;
  }

  /** `sessions.retain(|s| s.mountpoint.is_some())`. */
  method RetainRunning(ss: seq<SessionInfo>) returns (kept: seq<SessionInfo>)
    ensures kept == Running(ss)
  {
    kept := [];
    var j := 0;
    while j < |ss|
      invariant 0 <= j <= |ss|
      invariant kept == Running(ss[..j])
    {
      assert ss[..j + 1][..j] == ss[..j];
      if ss[j].mountpoint.Some? {
        kept := kept + [ss[j]];
      }
      j := j + 1;
    }
    assert ss[..j] == ss;
  }

  /** The header and one row per session, all with the given column
      widths. */
  method Render(sessions: seq<SessionInfo>, idWidth: nat, mountWidth: nat) returns (lines: seq<string>)
    ensures |lines| == |sessions| + 1
    ensures lines[0] == Header(idWidth, mountWidth)
    ensures forall i :: 0 <= i < |sessions| ==> lines[i + 1] == Row(sessions[i], idWidth, mountWidth)
  {
    var head := Header(idWidth, mountWidth);
    lines := [head];
    var k := 0;
    while k < |sessions|
      invariant 0 <= k <= |sessions| && |lines| == k + 1 && lines[0] == head
      invariant forall t :: 0 <= t < k ==> lines[t + 1] == Row(sessions[t], idWidth, mountWidth)
    {
      lines := lines + [Row(sessions[k], idWidth, mountWidth)];
      k := k + 1;
    }
  }

  /** `ps`: scans, merges with the mounted set, filters unless `showAll`,
      sorts, and renders. The lines are what is written, one per
      `writeln!`. */
  method Ps(home: Option<string>, mounted: set<string>, runDirExists: bool,
            listing: Option<seq<Option<DirEntry>>>, showAll: bool)
    returns (sessions: seq<SessionInfo>, lines: seq<string>)
    ensures SortedById(sessions)
    ensures multiset(sessions)
            == multiset(Selected(Collected(RunDir(home), mounted, runDirExists, listing), showAll))
    ensures sessions == [] ==> lines == [EmptyMessage(showAll, RunDir(home))]
    ensures sessions != [] ==>
              |lines| == |sessions| + 1
              && lines[0] == Header(IdWidth(sessions), MountWidth(sessions))
              && forall i :: 0 <= i < |sessions| ==>
                   lines[i + 1] == Row(sessions[i], IdWidth(sessions), MountWidth(sessions))
  {
    var runDir := RunDir(home);
    var found: seq<SessionInfo> := [];
    if runDirExists && listing.Some? {
      found := Collect(runDir, mounted, listing.value);
    }
    var kept := found;
    if !showAll {
      kept := RetainRunning(found);
    }
    sessions := SortById(kept);
    if |sessions| == 0 {
      lines := [EmptyMessage(showAll, runDir)];
    } else {
      lines := Render(sessions, IdWidth(sessions), MountWidth(sessions));
    }
  }

  // ---------------------------------------------------------------------
  // The three-session scenario
  // ---------------------------------------------------------------------

  function Dir(name: string): Option<DirEntry>
  {
    Some(DirEntry(Some(name), true, true))
  }

  /** The scan of the example: s3, s1 and s2 in that order, only s2 mounted. */
  lemma ExampleScan(runDir: string)
    ensures Candidates(runDir, {"s2"}, [Dir("s3"), Dir("s1"), Dir("s2")])
            == [SessionInfo("s3", None), SessionInfo("s1", None),
                SessionInfo("s2", Some(MountPath(runDir, "s2")))]
  {
    var m: set<string> := {"s2"};
    var e1, e2, e3 := [Dir("s3")], [Dir("s3"), Dir("s1")], [Dir("s3"), Dir("s1"), Dir("s2")];
    assert SessionOf(runDir, m, Dir("s3")) == Some(SessionInfo("s3", None));
    assert SessionOf(runDir, m, Dir("s1")) == Some(SessionInfo("s1", None));
    assert SessionOf(runDir, m, Dir("s2")) == Some(SessionInfo("s2", Some(MountPath(runDir, "s2"))));
    assert e1[..0] == [] && e2[..1] == e1 && e3[..2] == e2;
    assert Candidates(runDir, m, e1) == [SessionInfo("s3", None)];
    assert Candidates(runDir, m, e2) == [SessionInfo("s3", None), SessionInfo("s1", None)];
  }

  /** The three sessions in id order. */
  lemma ExampleOrder(runDir: string)
    ensures var sorted := [SessionInfo("s1", None), SessionInfo("s2", Some(MountPath(runDir, "s2"))),
                           SessionInfo("s3", None)];
            SortedById(sorted) && DistinctIds(sorted)
  {
    assert LexLe("s1", "s2") && LexLe("s2", "s3") && LexLe("s1", "s3");
  }

  /** Sessions s1, s2 and s3 on disk (scanned in the order s3, s1, s2) and
      only s2 mounted: the default listing is s2 alone, running. */
  lemma DefaultListingExample(runDir: string)
    ensures Running(Candidates(runDir, {"s2"}, [Dir("s3"), Dir("s1"), Dir("s2")]))
            == [SessionInfo("s2", Some(MountPath(runDir, "s2")))]
  {
    ExampleScan(runDir);
    var s1, s2, s3 := SessionInfo("s1", None), SessionInfo("s2", Some(MountPath(runDir, "s2"))),
                      SessionInfo("s3", None);
    var c := [s3, s1, s2];
    assert c[..2] == [s3, s1] && c[..2][..1] == [s3] && c[..2][..1][..0] == [];
    assert Running([s3]) == [];
    assert Running([s3, s1]) == [];
  }

  /** The same scan in all-mode: whatever sorted ordering of the three
      sessions is printed, it is s1 stopped, s2 running, s3 stopped. */
  lemma FullListingExample(runDir: string, all: seq<SessionInfo>)
    requires SortedById(all)
    requires multiset(all) == multiset(Candidates(runDir, {"s2"}, [Dir("s3"), Dir("s1"), Dir("s2")]))
    ensures all == [SessionInfo("s1", None), SessionInfo("s2", Some(MountPath(runDir, "s2"))),
                    SessionInfo("s3", None)]
  {
    ExampleScan(runDir);
    ExampleOrder(runDir);
    var s1, s2, s3 := SessionInfo("s1", None), SessionInfo("s2", Some(MountPath(runDir, "s2"))),
                      SessionInfo("s3", None);
    assert multiset([s1, s2, s3]) == multiset([s3, s1, s2]);
    SortedIsUnique([s1, s2, s3], all);
  }
}
