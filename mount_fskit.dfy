/** `agentfs mount` on macOS through FSKit: a chain of checks that stops at
    the first failure (platform version, extension present, database path,
    mountpoint), one run of `/sbin/mount`, and in the foreground a wait
    until the mountpoint's device id changes. The commands run and the file
    metadata read are inputs. */
module MountFskit {
  import opened Common

  // ---------------------------------------------------------------------
  // Decimal numbers, as `str::parse::<u32>` reads them
  // ---------------------------------------------------------------------

  predicate IsDigit(c: char)
  {
    '0' <= c <= '9'
  }

  predicate AllDigits(s: string)
  {
    forall i :: 0 <= i < |s| ==> IsDigit(s[i])
  }

  /** The value of a string of decimal digits, most significant first. */
  function DigitsValue(s: string): nat
    requires AllDigits(s)
  {
    if s == [] then 0
    else DigitsValue(s[..|s| - 1]) * 10 + (s[|s| - 1] as int - '0' as int)
  }

  const U32_LIMIT: nat := 0x1_0000_0000

  /** `u32::from_str`: an optional `+`, then at least one decimal digit,
      and a value that fits in 32 bits; anything else (a `-`, an empty
      string, a space, an overflow) is an error. */
  function ParseU32(s: string): Option<u32>
  {
    var digits := if |s| > 0 && s[0] == '+' then s[1..] else s;
    if digits == [] || !AllDigits(digits) then None
    else if DigitsValue(digits) < U32_LIMIT then Some(DigitsValue(digits))
    else None
  }

  /** The shortest decimal rendering of `n`. */
  function Decimal(n: nat): (s: string)
    ensures |s| > 0 && AllDigits(s)
  {
    if n < 10 then [('0' as int + n) as char]
    else Decimal(n / 10) + [('0' as int + n % 10) as char]
  }

  lemma {:induction false} DecimalValue(n: nat)
    ensures DigitsValue(Decimal(n)) == n
    decreases n
  {
    if n >= 10 {
      var s := Decimal(n);
      assert s[..|s| - 1] == Decimal(n / 10);
      DecimalValue(n / 10);
    }
  }

  /** Reading back the decimal rendering of a 32-bit number gives the
      number, with or without a leading `+`. */
  lemma ParseDecimal(n: nat)
    requires n < U32_LIMIT
    ensures ParseU32(Decimal(n)) == Some(n)
    ensures ParseU32("+" + Decimal(n)) == Some(n)
  {
    DecimalValue(n);
    var d := Decimal(n);
    assert ("+" + d)[1..] == d;
  }

  /** Negative numbers, empty strings and numbers of 2^32 or more are not
      read. */
  lemma ParseRejects(s: string, n: nat)
    requires n >= U32_LIMIT
    ensures ParseU32("-" + s) == None
    ensures ParseU32("") == None && ParseU32("+") == None
    ensures ParseU32(Decimal(n)) == None
  {
    assert !IsDigit(("-" + s)[0]);
    DecimalValue(n);
    assert "+"[1..] == "";
  }

  // ---------------------------------------------------------------------
  // Platform version
  // ---------------------------------------------------------------------

  /** The text before the first `c`, the whole text when there is none:
      the first item of `str::split(c)`. */
  function PrefixBefore(s: string, c: char): (r: string)
    ensures |r| <= |s| && r == s[..|r|]
    ensures c !in r
    ensures |r| < |s| ==> s[|r|] == c
  {
    if s == [] || s[0] == c then [] else [s[0]] + PrefixBefore(s[1..], c)
  }

  /** The major version `sw_vers -productVersion` reports: the trimmed
      output up to the first dot, as a u32; 0 when that does not parse. */
  function MajorVersion(stdout: string): u32
  {
    var first := PrefixBefore(Trim(stdout), '.');
    if ParseU32(first).Some? then ParseU32(first).value else 0
  }

  const FSKIT_MIN_MAJOR: nat := 26

  /** The result of running a command: it could not be started, or it ran
      and exited with the captured output. */
  datatype Launch = LaunchFailed | Exited(success: bool, stdout: string, stderr: string)

  /** `supports_fskit`: an error when `sw_vers` cannot be started, false
      when it exits unsuccessfully, otherwise whether the major version is
      at least 26. */
  function SupportsFskit(swVers: Launch): Result<bool, MountError>
  {
    match swVers
    case LaunchFailed => Err(VersionQueryFailed)
    case Exited(ok, out, _) => if !ok then Ok(false) else Ok(MajorVersion(out) >= FSKIT_MIN_MAJOR)
  }

  /** Stripping white space that is not there changes nothing, and a
      trailing newline is white space. */
  lemma TrimOfLine(body: string)
    requires |body| > 0 && !IsWhitespace(body[0]) && !IsWhitespace(body[|body| - 1])
    ensures Trim(body + "\n") == body
  {
    var s := body + "\n";
    assert s[0] == body[0];
    assert TrimStart(s) == s;
    assert IsWhitespace(s[|s| - 1]);
    assert s[..|s| - 1] == body;
    assert TrimEnd(body) == body;
    assert TrimEnd(s) == body;
  }

  /** A release string `<major>.<rest>` printed on one line is read as
      `major`, so FSKit is supported exactly from release 26 on. */
  lemma {:induction false} MajorVersionOfRelease(major: nat, rest: string)
    requires major < U32_LIMIT
    requires |rest| > 0 && !IsWhitespace(rest[|rest| - 1])
    ensures MajorVersion(Decimal(major) + "." + rest + "\n") == major
    ensures SupportsFskit(Exited(true, Decimal(major) + "." + rest + "\n", "")) == Ok(major >= 26)
  {
    var d := Decimal(major);
    var body := d + "." + rest;
    assert body[0] == d[0] && IsDigit(d[0]);
    assert body[|body| - 1] == rest[|rest| - 1];
    TrimOfLine(body);
    PrefixOfField(d, rest);
    ParseDecimal(major);
  }

  lemma {:induction false} PrefixOfField(d: string, rest: string)
    requires AllDigits(d)
    ensures PrefixBefore(d + "." + rest, '.') == d
    decreases |d|
  {
    if d == [] {
      assert (d + "." + rest)[0] == '.';
    } else {
      assert (d + "." + rest)[1..] == d[1..] + "." + rest;
      PrefixOfField(d[1..], rest);
      assert d == [d[0]] + d[1..];
    }
  }

  /** An answer whose first field is not a number counts as release 0,
      which is below the minimum; an unsuccessful run is "no" whatever it
      printed. */
  lemma UnreadableVersionIsUnsupported(out: string, err: string)
    requires ParseU32(PrefixBefore(Trim(out), '.')).None?
    ensures MajorVersion(out) == 0
    ensures SupportsFskit(Exited(true, out, err)) == Ok(false)
    ensures SupportsFskit(Exited(false, out, err)) == Ok(false)
  {
  }

  // ---------------------------------------------------------------------
  // Extension, database path, resource locator
  // ---------------------------------------------------------------------

  const BUNDLE_ID := "io.turso.agentfs"
  const EXTENSION_NAME := "AgentFS"

  /** `is_extension_installed`: the listing of `systemextensionsctl list`
      mentions the bundle id or the name. The exit status is not looked at;
      a command that cannot be started means "not installed". */
  function ExtensionInstalled(listing: Launch): bool
  {
    listing.Exited? && (Contains(listing.stdout, BUNDLE_ID) || Contains(listing.stdout, EXTENSION_NAME))
  }

  /** The extension is found exactly when one of the two names occurs at
      some offset of the listing, whatever the exit status. */
  lemma ExtensionInstalledIff(ok: bool, out: string, err: string)
    ensures ExtensionInstalled(Exited(ok, out, err))
            <==> (exists i: nat :: OccursAt(out, BUNDLE_ID, i)) || (exists i: nat :: OccursAt(out, EXTENSION_NAME, i))
    ensures !ExtensionInstalled(LaunchFailed)
  {
    ContainsIffOccurs(out, BUNDLE_ID);
    ContainsIffOccurs(out, EXTENSION_NAME);
  }

  /** A listing line naming the extension is enough, wherever it appears. */
  lemma ListingLineIsFound(before: string, after: string, ok: bool, err: string)
    ensures ExtensionInstalled(Exited(ok, before + BUNDLE_ID + after, err))
    ensures ExtensionInstalled(Exited(ok, before + EXTENSION_NAME + after, err))
  {
    ContainsInfix(before, BUNDLE_ID, after);
    ContainsInfix(before, EXTENSION_NAME, after);
  }

  /** What resolving the id or path gives: an error, an ephemeral target
      (no path), or a database path. */
  datatype Resolution = ResolveError(reason: string) | Ephemeral | AtPath(path: string)

  /** `resolve_db_path`: only a target with a path can be mounted, and the
      path mounted is its canonical form. `canonicalize` is the operating
      system's answer, None when the path cannot be canonicalized. */
  function ResolveDbPath(resolution: Resolution, canonicalize: string -> Option<string>): (r: Result<string, MountError>)
    ensures r.Ok? <==> resolution.AtPath? && canonicalize(resolution.path).Some?
    ensures r.Ok? ==> r.value == canonicalize(resolution.path).value
    ensures resolution.Ephemeral? ==> r == Err(EphemeralTarget)
  {
    match resolution
    case ResolveError(reason) => Err(ResolveFailed(reason))
    case Ephemeral => Err(EphemeralTarget)
    case AtPath(p) =>
      match canonicalize(p)
      case Some(c) => Ok(c)
      case None => Err(CanonicalizeFailed(p))
  }

  const URL_SCHEME := "file://"

  /** The FSKit resource: the path after `file://`, with no percent-encoding. */
  function ResourceUrl(dbPath: string): string
  {
    URL_SCHEME + dbPath
  }

  /** The path a `file://` locator names, None for any other text. */
  function PathOfUrl(url: string): Option<string>
  {
    if |url| >= |URL_SCHEME| && url[..|URL_SCHEME|] == URL_SCHEME then Some(url[|URL_SCHEME|..]) else None
  }

  /** The locator is read back as the path it was built from, so two paths
      never share one. */
  lemma ResourceUrlRoundTrip(p: string, q: string)
    ensures PathOfUrl(ResourceUrl(p)) == Some(p)
    ensures ResourceUrl(p) == ResourceUrl(q) ==> p == q
  {
    assert ResourceUrl(p)[|URL_SCHEME|..] == p;
    assert ResourceUrl(p)[..|URL_SCHEME|] == URL_SCHEME;
    if ResourceUrl(p) == ResourceUrl(q) {
      assert ResourceUrl(q)[|URL_SCHEME|..] == q;
    }
  }

  /** The arguments of `/sbin/mount`. */
  function MountArgv(dbPath: string, mountpoint: string): (argv: seq<string>)
    ensures |argv| == 4 && argv[0] == "-t" && argv[1] == "agentfs"
    ensures PathOfUrl(argv[2]) == Some(dbPath) && argv[3] == mountpoint
  {
    ResourceUrlRoundTrip(dbPath, dbPath);
    ["-t", "agentfs", ResourceUrl(dbPath), mountpoint]
  }

  // ---------------------------------------------------------------------
  // Errors and their messages
  // ---------------------------------------------------------------------

  datatype MountError =
    | VersionQueryFailed
    | Unsupported
    | ExtensionMissing
    | ResolveFailed(reason: string)
    | EphemeralTarget
    | CanonicalizeFailed(path: string)
    | MountpointMissing(mountpoint: string)
    | MountLaunchFailed
    | MountFailed(stderr: string)
    | WaitFailed

  /** The text the user sees. The errors raised by the operating system
      (a command that cannot start, a path that cannot be canonicalized,
      unreadable metadata) and by the path resolver carry the foreign
      error's text, which is not part of this model. */
  function Message(e: MountError): string
  {
    match e
    case VersionQueryFailed => "sw_vers could not be run"
    case Unsupported =>
      "FSKit requires macOS 26 or later.\nYou can use the `--features force-fuse` flag to use macFUSE instead."
    case ExtensionMissing =>
      "AgentFS FSKit extension is not installed.\n\nTo install:\n"
      + "1. Build the extension: cd fskit-ffi && make build-extension\n"
      + "2. Install the extension app bundle\n"
      + "3. Enable it via: System Settings > General > Login Items & Extensions\n"
      + "> File System Extensions > AgentFS\n\n"
      + "Alternatively, use macFUSE with: cargo build --features force-fuse"
    case ResolveFailed(reason) => reason
    case EphemeralTarget => "Cannot mount ephemeral filesystem"
    case CanonicalizeFailed(p) => p
    case MountpointMissing(mp) => "Mountpoint does not exist: " + mp
    case MountLaunchFailed => "/sbin/mount could not be run"
    case MountFailed(stderr) =>
      "Mount failed: " + Trim(stderr) + "\n\nMake sure the AgentFS FSKit extension is installed and enabled."
    case WaitFailed => "mountpoint metadata could not be read"
  }

  /** A failed mount shows what the mount tool wrote to stderr, trimmed;
      a missing mountpoint is named. */
  lemma MessagesCarryDetail(stderr: string, mp: string)
    ensures Contains(Message(MountFailed(stderr)), Trim(stderr))
    ensures Contains(Message(MountpointMissing(mp)), mp)
  {
    ContainsInfix("Mount failed: ", Trim(stderr),
                  "\n\nMake sure the AgentFS FSKit extension is installed and enabled.");
    ContainsInfix("Mountpoint does not exist: ", mp, "");
    assert "Mountpoint does not exist: " + mp + "" == Message(MountpointMissing(mp));
  }

  // ---------------------------------------------------------------------
  // Waiting for the unmount
  // ---------------------------------------------------------------------

  /** A poll ends the wait when the metadata cannot be read (None) or the
      device id is no longer the one seen at the start. */
  predicate EndsWait(poll: Option<int>, mountedDev: int)
  {
    poll.None? || poll.value != mountedDev
  }

  /** Unmounted after that many polls, or still mounted after every poll
      given. The loop itself has no bound; the polls are the ones that
      happen before the process is stopped. */
  datatype WaitOutcome = Unmounted(polls: nat) | StillMounted

  /** `w` is how the wait ends on these polls when the mounted device is
      `mountedDev`: at the first poll that ends it, or never. */
  predicate WaitsAsPolled(mountedDev: int, polls: seq<Option<int>>, w: WaitOutcome)
  {
    match w
    case Unmounted(n) =>
      1 <= n <= |polls| && EndsWait(polls[n - 1], mountedDev)
      && forall k :: 0 <= k < n - 1 ==> !EndsWait(polls[k], mountedDev)
    case StillMounted =>
      forall k :: 0 <= k < |polls| ==> !EndsWait(polls[k], mountedDev)
  }

  /** The polls decide the outcome: no two outcomes fit the same polls. */
  lemma WaitOutcomeIsDetermined(mountedDev: int, polls: seq<Option<int>>, w1: WaitOutcome, w2: WaitOutcome)
    requires WaitsAsPolled(mountedDev, polls, w1) && WaitsAsPolled(mountedDev, polls, w2)
    ensures w1 == w2
  {
  }

  /** `wait_for_unmount`: reads the device id once (an error ends the mount
      command with an error), then polls until a poll ends the wait. */
  method WaitForUnmount(initialDev: Option<int>, polls: seq<Option<int>>)
    returns (r: Result<WaitOutcome, MountError>)
    ensures r.Err? <==> initialDev.None?
    ensures r.Err? ==> r.error == WaitFailed
    ensures r.Ok? ==> WaitsAsPolled(initialDev.value, polls, r.value)
  {
    if initialDev.None? {
      return Err(WaitFailed);
    }
    var mountedDev := initialDev.value;
    var i := 0;
    while i < |polls|
      invariant 0 <= i <= |polls|
      invariant forall k :: 0 <= k < i ==> !EndsWait(polls[k], mountedDev)
    {
      match polls[i] {
        case Some(dev) =>
          if dev != mountedDev {
            return Ok(Unmounted(i + 1));
          }
        case None =>
          return Ok(Unmounted(i + 1));
      }
      i := i + 1;
    }
    r := Ok(StillMounted);
  }

  // ---------------------------------------------------------------------
  // The mount command
  // ---------------------------------------------------------------------

  datatype MountArgs = MountArgs(idOrPath: string, mountpoint: string, autoUnmount: bool,
                                 allowRoot: bool, foreground: bool, uid: Option<u32>, gid: Option<u32>)

  /** Everything the command learns from the system, in the order it asks. */
  datatype Host = Host(swVers: Launch, extensions: Launch, resolution: Resolution,
                       canonicalize: string -> Option<string>, mountpointExists: bool,
                       mountRun: Launch, initialDev: Option<int>, polls: seq<Option<int>>)

  /** The actions the command takes on the system. */
  datatype Step =
    | QueryVersion
    | ListExtensions
    | ResolvePath(idOrPath: string)
    | CheckMountpoint(mountpoint: string)
    | RunMount(argv: seq<string>)
    | WatchMountpoint(mountpoint: string)

  function Rank(s: Step): nat
  {
    match s
    case QueryVersion => 0
    case ListExtensions => 1
    case ResolvePath(_) => 2
    case CheckMountpoint(_) => 3
    case RunMount(_) => 4
    case WatchMountpoint(_) => 5
  }

  /** Each stage at most once, and in the order of the chain. */
  predicate InStageOrder(trace: seq<Step>)
  {
    forall i, j :: 0 <= i < j < |trace| ==> Rank(trace[i]) < Rank(trace[j])
  }

  /** The four checks, in the order the command makes them. */
  function PreflightSteps(args: MountArgs): seq<Step>
  {
    [QueryVersion, ListExtensions, ResolvePath(args.idOrPath), CheckMountpoint(args.mountpoint)]
  }

  /** Everything the command can do, in order: the checks, the mount, the
      wait. */
  function AllSteps(args: MountArgs, dbPath: string): seq<Step>
  {
    PreflightSteps(args) + [RunMount(MountArgv(dbPath, args.mountpoint)), WatchMountpoint(args.mountpoint)]
  }

  /** Every prefix of the full plan is in stage order, so whatever a run
      stops at, each action happened at most once. */
  lemma PlanInStageOrder(args: MountArgs, dbPath: string, n: nat)
    requires n <= 6
    ensures InStageOrder(AllSteps(args, dbPath)[..n])
  {
    var t := AllSteps(args, dbPath);
    assert forall k :: 0 <= k < 6 ==> Rank(t[k]) == k;
  }

  /** The check that, when it fails, stops the command, counted from 1. */
  function FailingStage(e: MountError): nat
  {
    match e
    case VersionQueryFailed => 1
    case Unsupported => 1
    case ExtensionMissing => 2
    case ResolveFailed(_) => 3
    case EphemeralTarget => 3
    case CanonicalizeFailed(_) => 3
    case MountpointMissing(_) => 4
    case MountLaunchFailed => 5
    case MountFailed(_) => 5
    case WaitFailed => 6
  }

  /** The first failing check, or the database path when all pass. */
  function Preflight(args: MountArgs, host: Host): Result<string, MountError>
  {
    match SupportsFskit(host.swVers)
    case Err(e) => Err(e)
    case Ok(supported) =>
      if !supported then Err(Unsupported)
      else if !ExtensionInstalled(host.extensions) then Err(ExtensionMissing)
      else
        match ResolveDbPath(host.resolution, host.canonicalize)
        case Err(e) => Err(e)
        case Ok(dbPath) =>
          if !host.mountpointExists then Err(MountpointMissing(args.mountpoint)) else Ok(dbPath)
  }

  /** The checks are made in a fixed order and the first failure wins:
      an unsupported version is reported whatever the extension, the path
      and the mountpoint are, and a missing extension whatever the path
      and the mountpoint are. Passing means every check passed. */
  lemma PreflightFailsFast(args: MountArgs, host: Host)
    ensures host.swVers.LaunchFailed? ==> Preflight(args, host) == Err(VersionQueryFailed)
    ensures SupportsFskit(host.swVers) == Ok(false) ==> Preflight(args, host) == Err(Unsupported)
    ensures SupportsFskit(host.swVers) == Ok(true) && !ExtensionInstalled(host.extensions)
            ==> Preflight(args, host) == Err(ExtensionMissing)
    ensures host.resolution.Ephemeral? && Preflight(args, host).Err?
            ==> Preflight(args, host).error in {VersionQueryFailed, Unsupported, ExtensionMissing, EphemeralTarget}
    ensures Preflight(args, host).Err? ==> FailingStage(Preflight(args, host).error) <= 4
    ensures Preflight(args, host).Ok? ==>
              SupportsFskit(host.swVers) == Ok(true) && ExtensionInstalled(host.extensions)
              && host.resolution.AtPath? && host.mountpointExists
              && Preflight(args, host).value == host.canonicalize(host.resolution.path).value
  {
  }

  /** macOS 15.6.1 is below the minimum, so on it the command stops at
      the first check, before the extension listing is looked at. */
  lemma OldReleaseStopsFirst(args: MountArgs, host: Host)
    requires host.swVers == Exited(true, "15.6.1\n", "")
    ensures Preflight(args, host) == Err(Unsupported)
    ensures FailingStage(Preflight(args, host).error) == 1
  {
    assert Decimal(15) == "15";
    assert "15" + "." + "6.1" + "\n" == "15.6.1\n";
    MajorVersionOfRelease(15, "6.1");
  }

  /** macOS 26.0 passes the version check. */
  lemma FirstFskitRelease()
    ensures SupportsFskit(Exited(true, "26.0\n", "")) == Ok(true)
  {
    assert Decimal(26) == "26";
    assert "26" + "." + "0" + "\n" == "26.0\n";
    MajorVersionOfRelease(26, "0");
  }

  /** The checks of `mount`, each made only when the ones before it
      passed; the trace ends with the check that failed. */
  method RunPreflight(args: MountArgs, host: Host) returns (r: Result<string, MountError>, trace: seq<Step>)
    ensures r == Preflight(args, host)
    ensures 1 <= |trace| <= 4 && trace == PreflightSteps(args)[..|trace|]
    ensures r.Err? ==> |trace| == FailingStage(r.error)
    ensures r.Ok? ==> trace == PreflightSteps(args)
  {
    trace := [QueryVersion];
    var supported := SupportsFskit(host.swVers);
    if supported.Err? {
      return Err(supported.error), trace;
    }
    if !supported.value {
      return Err(Unsupported), trace;
    }
    trace := trace + [ListExtensions];
    if !ExtensionInstalled(host.extensions) {
      return Err(ExtensionMissing), trace;
    }
    trace := trace + [ResolvePath(args.idOrPath)];
    var resolved := ResolveDbPath(host.resolution, host.canonicalize);
    if resolved.Err? {
      return Err(resolved.error), trace;
    }
    trace := trace + [CheckMountpoint(args.mountpoint)];
    if !host.mountpointExists {
      return Err(MountpointMissing(args.mountpoint)), trace;
    }
    r := Ok(resolved.value);
  }

  /** What a successful mount command did. */
  datatype Mounted = Detached | Waited(outcome: WaitOutcome)

  /** `mount`: the fail-fast checks, one run of the mount tool with the
      resource locator of the canonical path, and the wait in the
      foreground only. The trace is a prefix of the plan that ends at the
      stage that failed, if any. */
  method Mount(args: MountArgs, host: Host) returns (r: Result<Mounted, MountError>, trace: seq<Step>)
    ensures InStageOrder(trace)
    ensures Preflight(args, host).Err? ==>
              r == Err(Preflight(args, host).error)
              && trace == PreflightSteps(args)[..FailingStage(r.error)]
    ensures Preflight(args, host).Ok? ==>
              5 <= |trace| <= 6 && trace == AllSteps(args, Preflight(args, host).value)[..|trace|]
    ensures Preflight(args, host).Ok? && !host.mountRun.Exited? ==> r == Err(MountLaunchFailed)
    ensures Preflight(args, host).Ok? && host.mountRun.Exited? && !host.mountRun.success ==>
              r == Err(MountFailed(host.mountRun.stderr))
    ensures r.Err? ==> |trace| == FailingStage(r.error)
    ensures r.Ok? ==> host.mountRun.Exited? && host.mountRun.success
    ensures r.Ok? ==> (r.value.Detached? <==> !args.foreground)
    ensures |trace| == 6 <==> Preflight(args, host).Ok? && host.mountRun.Exited? && host.mountRun.success && args.foreground
    ensures Preflight(args, host).Ok? && host.mountRun.Exited? && host.mountRun.success ==>
              if !args.foreground then r == Ok(Detached)
              else if host.initialDev.None? then r == Err(WaitFailed)
              else r.Ok? && r.value.Waited? && WaitsAsPolled(host.initialDev.value, host.polls, r.value.outcome)
  {
    var checked, steps := RunPreflight(args, host);
    trace := steps;
    if checked.Err? {
      PlanInStageOrder(args, "", |trace|);
      assert AllSteps(args, "")[..|trace|] == trace;
      return Err(checked.error), trace;
    }
    var plan := AllSteps(args, checked.value);
    trace := trace + [RunMount(MountArgv(checked.value, args.mountpoint))];
    assert trace == plan[..5];
    PlanInStageOrder(args, checked.value, 5);
    PlanInStageOrder(args, checked.value, 6);
    match host.mountRun {
      case LaunchFailed =>
        return Err(MountLaunchFailed), trace;
      case Exited(ok, _, stderr) =>
        if !ok {
          return Err(MountFailed(stderr)), trace;
        }
    }
    if !args.foreground {
      return Ok(Detached), trace;
    }
    trace := trace + [WatchMountpoint(args.mountpoint)];
    assert trace == plan[..6];
    var waited := WaitForUnmount(host.initialDev, host.polls);
    if waited.Err? {
      return Err(waited.error), trace;
    }
    r := Ok(Waited(waited.value));
  }
}
