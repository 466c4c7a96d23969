/** Staging, installing and rolling back updates under the max-seen and failed-version markers. */
module AntiDowngrade {
  import opened Bytes
  import opened Versions

  /**
   * The files and the process. `exe` is the version of the executable on disk, `current` the version the process
   * reports, `maxSeen` and `failed` the markers ("" when absent), `payload` the version of the staged binary and
   * `recorded` the content of the staged-version file ("" when absent).
   */
  datatype World = World(
    exe: string, backup: Option<string>, current: string,
    maxSeen: string, failed: string, payload: Option<string>, recorded: string)

  /** How fetching and checking a release ends; the last two leave its binary in the staging directory. */
  datatype Fetch = NotFetched | Discarded | VerifiedUnrecorded | VerifiedRecorded

  datatype Environment = CheckEnv(readMaxOk: bool, readFailedOk: bool, clearOk: bool, fetch: Fetch)

  /** How an install ends: before the swap, restored after it, not restored, or through. */
  datatype Swap = NotSwapped(backedUp: bool) | Restored | Unrestored | Swapped

  datatype Op =
    | Boot
    | Seed(readOk: bool, writeOk: bool)
    | Check(release: string, env: Environment)
    | Install(swap: Swap, payloadRemoved: bool, recordRemoved: bool, markerOk: bool)
    | Rollback(renameOk: bool, markOk: bool)
    | DropBackup

  /** The candidate is not older than the marker. */
  predicate NotOlder(marker: string, v: string) {
    marker == "" || Compare(marker, v) <= 0
  }

  /** Seeding raises the marker to the running version and never lowers it. */
  function Seeded(w: World, readOk: bool, writeOk: bool): (r: World) {
    if w.current == "" || w.current == "dev" || !readOk then w
    else if w.maxSeen != "" && Compare(w.current, w.maxSeen) <= 0 then w
    else if writeOk then w.(maxSeen := w.current) else w
  }

  datatype Verdict = UpToDate | DowngradeRejected | SkippedFailed | Errored | Staged

  /** The gates of one check cycle, in order. */
  function Gate(w: World, release: string, env: Environment): (v: Verdict) {
    if Compare(w.current, release) >= 0 then UpToDate
    else if !env.readMaxOk then Errored
    else if w.maxSeen != "" && Compare(release, w.maxSeen) < 0 then DowngradeRejected
    else if !env.readFailedOk then Errored
    else if w.failed != "" && release == w.failed then SkippedFailed
    else if w.failed != "" && !env.clearOk then Errored
    else if env.fetch == VerifiedRecorded then Staged else Errored
  }

  /** The release passes every gate and is fetched. */
  predicate Fetches(w: World, release: string, env: Environment) {
    && Compare(w.current, release) < 0 && env.readMaxOk && NotOlder(w.maxSeen, release)
    && env.readFailedOk && (w.failed == "" || (release != w.failed && env.clearOk))
  }

  function Checked(w: World, release: string, env: Environment): (r: World) {
    if !Fetches(w, release, env) then w
    else
      var c := w.(failed := "");
      match env.fetch
      case NotFetched => c
      case Discarded => c.(payload := None)
      case VerifiedUnrecorded => c.(payload := Some(release))
      case VerifiedRecorded => c.(payload := Some(release), recorded := release)
  }

  predicate HasStaged(w: World) {
    w.payload.Some? && w.recorded != ""
  }

  function Installed(w: World, swap: Swap, payloadRemoved: bool, recordRemoved: bool, markerOk: bool): (r: World) {
    if !HasStaged(w) then w
    else
      match swap
      case NotSwapped(backedUp) => if backedUp then w.(backup := Some(w.exe)) else w
      case Restored => w.(backup := None)
      case Unrestored => w.(backup := Some(w.exe), exe := w.payload.value)
      case Swapped =>
        World(w.payload.value, Some(w.exe), w.recorded,
              if markerOk then w.recorded else w.maxSeen, w.failed,
              if payloadRemoved then None else w.payload, if recordRemoved then "" else w.recorded)
  }

  /** Restores the backup and marks the version that was running as failed. */
  function RolledBack(w: World, renameOk: bool, markOk: bool): (r: World) {
    if w.backup.None? || !renameOk then w
    else w.(exe := w.backup.value, backup := None, failed := if markOk then w.current else w.failed)
  }

  function Step(w: World, op: Op): (r: World) {
    match op
    case Boot => w.(current := w.exe)
    case Seed(readOk, writeOk) => Seeded(w, readOk, writeOk)
    case Check(release, env) => Checked(w, release, env)
    case Install(swap, p, r, m) => Installed(w, swap, p, r, m)
    case Rollback(renameOk, markOk) => RolledBack(w, renameOk, markOk)
    case DropBackup => w.(backup := None)
  }

  function Run(w: World, ops: seq<Op>): (r: World)
    decreases |ops|
  {
    if ops == [] then w else Run(Step(w, ops[0]), ops[1..])
  }

  // ---------- as it runs ----------

  class Updater {
    var exe: string
    var backup: Option<string>
    var current: string
    var maxSeen: string
    var failed: string
    var payload: Option<string>
    var recorded: string

    constructor (version: string)
      ensures View() == World(version, None, version, "", "", None, "")
    {
      exe, backup, current, maxSeen, failed, payload, recorded := version, None, version, "", "", None, "";
    }

    ghost function View(): (w: World)
      reads this
    {
      World(exe, backup, current, maxSeen, failed, payload, recorded)
    }

    method CompareVersions(a: string, b: string) returns (s: int)
      ensures s == Compare(a, b)
    {
      var x := ParseVersion(a);
      var y := ParseVersion(b);
      s := CompareParsed(x, y);
    }

    method SeedMaxSeenVersion(readOk: bool, writeOk: bool)
      modifies this
      ensures View() == Step(old(View()), Seed(readOk, writeOk))
      ensures unchanged(`exe, `backup, `current, `failed, `payload, `recorded)
      ensures var higher := old(maxSeen) == "" || Compare(current, old(maxSeen)) > 0;
        maxSeen == if current != "" && current != "dev" && readOk && writeOk && higher then current else old(maxSeen)
    {
      if current == "" || current == "dev" || !readOk {
        return;
      }
      if maxSeen != "" {
        var s := CompareVersions(current, maxSeen);
        if s <= 0 {
          return;
        }
      }
      if writeOk {
        maxSeen := current;
      }
    }

    /** One cycle: version check, downgrade gate, failed-version gate, fetch, verify, record. */
    method CheckAndDownload(release: string, env: Environment) returns (v: Verdict)
      modifies this
      ensures View() == Step(old(View()), Check(release, env)) && v == Gate(old(View()), release, env)
      ensures unchanged(`exe, `backup, `current, `maxSeen)
      ensures v == UpToDate <==> Compare(current, release) >= 0
      ensures v == DowngradeRejected <==>
        Compare(current, release) < 0 && env.readMaxOk && maxSeen != "" && Compare(release, maxSeen) < 0
      ensures var acceptable := Compare(current, release) < 0 && env.readMaxOk && env.readFailedOk &&
                                (maxSeen == "" || Compare(release, maxSeen) >= 0);
        && (v == SkippedFailed <==> acceptable && old(failed) != "" && release == old(failed))
        && (v == Staged <==>
              && acceptable && (old(failed) == "" || (release != old(failed) && env.clearOk))
              && env.fetch == VerifiedRecorded)
      ensures v == Staged ==> failed == "" && payload == Some(release) && recorded == release
      ensures v == UpToDate || v == DowngradeRejected || v == SkippedFailed ==> unchanged(this)
      ensures v != Staged ==> recorded == old(recorded)
      ensures payload == old(payload) || payload == None || (payload == Some(release) && Compare(current, release) < 0)
    {
      hide Compare, CompareParsed;
      SignFlips(maxSeen, release);
      var s := CompareVersions(current, release);
      if s >= 0 {
        return UpToDate;
      }
      if !env.readMaxOk {
        return Errored;
      }
      if maxSeen != "" {
        s := CompareVersions(release, maxSeen);
        if s < 0 {
          return DowngradeRejected;
        }
      }
      if !env.readFailedOk {
        return Errored;
      }
      if failed != "" {
        if release == failed {
          return SkippedFailed;
        }
        if !env.clearOk {
          return Errored;
        }
        failed := "";
      }
      match env.fetch {
        case NotFetched => return Errored;
        case Discarded => payload := None; return Errored;
        case VerifiedUnrecorded => payload := Some(release); return Errored;
        case VerifiedRecorded => payload, recorded := Some(release), release; return Staged;
      }
    }

    /** Backup, swap, restore on failure, cleanup, marker. */
    method InstallStaged(swap: Swap, payloadRemoved: bool, recordRemoved: bool, markerOk: bool) returns (ok: bool)
      modifies this
      ensures View() == Step(old(View()), Install(swap, payloadRemoved, recordRemoved, markerOk))
      ensures ok <==> old(payload).Some? && old(recorded) != "" && swap == Swapped
      ensures ok ==>
        && exe == old(payload).value && backup == Some(old(exe)) && current == old(recorded)
        && maxSeen == if markerOk then old(recorded) else old(maxSeen)
      ensures !ok ==> unchanged(`current, `maxSeen, `payload, `recorded) && (swap != Unrestored ==> exe == old(exe))
      ensures failed == old(failed)
    {
      if payload.None? || recorded == "" {
        return false;
      }
      if swap.NotSwapped? && !swap.backedUp {
        return false;
      }
      backup := Some(exe);
      if swap.NotSwapped? {
        return false;
      }
      exe := payload.value;
      if swap == Restored {
        exe, backup := backup.value, None;
        return false;
      }
      if swap == Unrestored {
        return false;
      }
      var version := recorded;
      if payloadRemoved {
        payload := None;
      }
      if recordRemoved {
        recorded := "";
      }
      if markerOk {
        maxSeen := version;
      }
      current := version;
      ok := true;
    }

    method RollbackInstall(renameOk: bool, markOk: bool) returns (ok: bool)
      modifies this
      ensures View() == Step(old(View()), Rollback(renameOk, markOk)) && (ok <==> old(backup).Some? && renameOk)
      ensures !ok ==> unchanged(this)
      ensures ok ==>
        && exe == old(backup).value && backup == None && failed == (if markOk then current else old(failed))
        && unchanged(`current, `maxSeen, `payload, `recorded)
    {
      if backup.None? || !renameOk {
        return false;
      }
      exe, backup := backup.value, None;
      if markOk {
        failed := current;
      }
      ok := true;
    }
  }

  lemma SignFlips(a: string, b: string)
    ensures Compare(a, b) == -Compare(b, a)
  {
    TotalPreorder(a, b, a);
  }

  // ---------- what a cycle stages ----------

  /** A staged release is newer than the process, not older than the marker, and not the failed version. */
  lemma StagedPassesGates(w: World, release: string, env: Environment)
    ensures Gate(w, release, env) == Staged <==> Fetches(w, release, env) && env.fetch == VerifiedRecorded
    ensures Gate(w, release, env) == Staged ==>
      && (w.failed == "" || release != w.failed) && NotOlder(w.maxSeen, release) && Compare(w.current, release) < 0
      && Checked(w, release, env).payload == Some(release) && Checked(w, release, env).recorded == release
  {
    hide Compare;
    SignFlips(w.maxSeen, release);
  }

  // ---------- the marker over runs ----------

  /** `v` is at least `u`, where "" stands for no version at all. */
  predicate AtLeast(v: string, u: string) {
    u == "" || Compare(u, v) <= 0
  }

  /**
   * Versions on disk and in the process never exceed what is staged; the staged pair is consistent; the backup
   * is not newer than the executable, nor that than what the process reports.
   */
  ghost predicate Inv(w: World) {
    && Compare(w.exe, w.current) <= 0
    && (w.backup.Some? ==> Compare(w.backup.value, w.exe) <= 0)
    && (HasStaged(w) ==>
          && w.payload.value == w.recorded
          && Compare(w.current, w.recorded) <= 0 && AtLeast(w.recorded, w.maxSeen))
  }

  /** Every verified payload has its version recorded, and a swap that must be undone is undone. */
  predicate Faithful(op: Op) {
    && (op.Check? ==> op.env.fetch != VerifiedUnrecorded)
    && (op.Install? ==> op.swap != Unrestored)
  }

  lemma Chain(a: string, b: string, c: string)
    requires Compare(a, b) <= 0 && Compare(b, c) <= 0
    ensures Compare(a, c) <= 0
  {
    TotalPreorder(a, b, c);
  }

  lemma Same(a: string)
    ensures Compare(a, a) == 0
  {
    TotalPreorder(a, a, a);
  }

  lemma StepKeeps(w: World, op: Op)
    requires Inv(w) && Faithful(op)
    ensures Inv(Step(w, op)) && AtLeast(Step(w, op).maxSeen, w.maxSeen)
    ensures op.Install? ==> Compare(w.exe, Step(w, op).exe) <= 0
  {
    hide Compare;
    Same(w.exe);
    Same(w.current);
    Same(w.maxSeen);
    match op
    case Boot =>
      if HasStaged(w) { Chain(w.exe, w.current, w.recorded); }
    case Seed(readOk, writeOk) => SignFlips(w.current, w.maxSeen);
    case Check(release, env) => SignFlips(w.current, release);
    case Install(swap, p, r, m) =>
      if HasStaged(w) {
        Chain(w.exe, w.current, w.recorded);
        Same(w.recorded);
      }
    case Rollback(renameOk, markOk) =>
      if w.backup.Some? { Chain(w.backup.value, w.exe, w.current); }
    case DropBackup =>
  }

  /** Over every faithful run the marker never goes down and is never erased. */
  lemma {:induction false} MarkerNeverDecreases(w: World, ops: seq<Op>)
    requires Inv(w) && forall i :: 0 <= i < |ops| ==> Faithful(ops[i])
    ensures Inv(Run(w, ops)) && AtLeast(Run(w, ops).maxSeen, w.maxSeen)
    ensures w.maxSeen != "" ==> Run(w, ops).maxSeen != ""
    decreases |ops|
  {
    hide Compare, Inv, Step;
    if ops == [] {
      Same(w.maxSeen);
    } else {
      StepKeeps(w, ops[0]);
      MarkerNeverDecreases(Step(w, ops[0]), ops[1..]);
      if w.maxSeen != "" {
        MarkerStays(w, ops[0]);
        Chain(w.maxSeen, Step(w, ops[0]).maxSeen, Run(w, ops).maxSeen);
      }
    }
  }

  /** In a faithful run no install replaces the executable by an older one. */
  lemma InstallsNeverDowngrade(w: World, ops: seq<Op>, k: nat)
    requires Inv(w) && (forall i :: 0 <= i < |ops| ==> Faithful(ops[i])) && k < |ops| && ops[k].Install?
    ensures var before := Run(w, ops[..k]); Compare(before.exe, Step(before, ops[k]).exe) <= 0
  {
    hide Compare, Inv, Step, Faithful;
    MarkerNeverDecreases(w, ops[..k]);
    StepKeeps(Run(w, ops[..k]), ops[k]);
  }

  /** A marker, once written, is never erased. */
  lemma MarkerStays(w: World, op: Op)
    requires w.maxSeen != ""
    ensures Step(w, op).maxSeen != ""
  {
    hide Compare;
  }

  lemma FreshInstallHolds(version: string)
    ensures Inv(World(version, None, version, "", "", None, ""))
  {
    hide Compare;
    Same(version);
  }

  /** An install that completes and writes a recorded version below the marker. */
  predicate WritesLower(w: World, op: Op) {
    op.Install? && HasStaged(w) && op.swap == Swapped && op.markerOk && Compare(w.recorded, w.maxSeen) < 0
  }

  /** A step lowers the marker exactly when it is such an install, which does not compare; no other step ever does. */
  lemma LowersIff(w: World, op: Op)
    requires w.maxSeen != ""
    ensures Compare(Step(w, op).maxSeen, w.maxSeen) < 0 <==> WritesLower(w, op)
  {
    hide Compare;
    Same(w.maxSeen);
    SignFlips(w.current, w.maxSeen);
  }

  /** Over a whole run, faithful or not, the marker is never lowered exactly when no step is such an install. */
  lemma {:induction false} RunLowersIff(w: World, ops: seq<Op>)
    requires w.maxSeen != ""
    ensures NeverLowered(w, ops) <==> NeverWritesLower(w, ops)
    decreases |ops|
  {
    hide Compare, Step, WritesLower;
    if ops != [] {
      LowersIff(w, ops[0]);
      MarkerStays(w, ops[0]);
      RunLowersIff(Step(w, ops[0]), ops[1..]);
    }
  }

  predicate NeverLowered(w: World, ops: seq<Op>)
    decreases |ops|
  {
    ops == [] || (Compare(Step(w, ops[0]).maxSeen, w.maxSeen) >= 0 && NeverLowered(Step(w, ops[0]), ops[1..]))
  }

  predicate NeverWritesLower(w: World, ops: seq<Op>)
    decreases |ops|
  {
    ops == [] || (!WritesLower(w, ops[0]) && NeverWritesLower(Step(w, ops[0]), ops[1..]))
  }

  /** A check of an acceptable release, everything readable and no version marked failed. */
  function CheckOf(release: string, fetch: Fetch): (op: Op) {
    Check(release, CheckEnv(true, true, true, fetch))
  }

  lemma Accepts(w: World, release: string, fetch: Fetch)
    requires Compare(w.current, release) < 0 && NotOlder(w.maxSeen, release) && w.failed == ""
    ensures fetch == VerifiedRecorded ==>
      Step(w, CheckOf(release, fetch)) == w.(payload := Some(release), recorded := release)
    ensures fetch == VerifiedUnrecorded ==> Step(w, CheckOf(release, fetch)) == w.(payload := Some(release))
  {
    hide Compare;
  }

  const CARELESS: Op := Install(Swapped, false, false, true)

  function Unrecorded(b: string, c: string): (ops: seq<Op>) {
    [CheckOf(b, VerifiedRecorded), CheckOf(c, VerifiedUnrecorded), CARELESS, Boot, Seed(true, true)]
  }

  /**
   * Without the recording condition the marker can go down: the payload of `c` verified but recorded as `b`, an
   * install whose cleanup fails, a reboot that seeds `c`, and a second install that writes `b` again.
   */
  lemma UnrecordedPayloadLowersMarker(a: string, b: string, c: string)
    requires Compare(a, b) < 0 && Compare(b, c) < 0 && b != "" && c != "" && c != "dev"
    ensures var w := Run(World(a, None, a, "", "", None, ""), Unrecorded(b, c));
      w.maxSeen == c && Step(w, CARELESS).maxSeen == b
  {
    hide Compare, Run, Step, CheckOf, CARELESS;
    TotalPreorder(a, b, c);
    SignFlips(b, c);
    var w0 := World(a, None, a, "", "", None, "");
    RunFive(w0, Unrecorded(b, c));
    Accepts(w0, b, VerifiedRecorded);
    var w1 := World(a, None, a, "", "", Some(b), b);
    Accepts(w1, c, VerifiedUnrecorded);
    var w2 := World(a, None, a, "", "", Some(c), b);
    var w3 := World(c, Some(a), b, b, "", Some(c), b);
    CarelessInstall(w2);
    var w4 := World(c, Some(a), c, b, "", Some(c), b);
    SeedsHigher(w4);
    CarelessInstall(w4.(maxSeen := c));
    Reboots(w3);
  }

  lemma CarelessInstall(w: World)
    requires HasStaged(w)
    ensures Step(w, CARELESS) ==
      World(w.payload.value, Some(w.exe), w.recorded, w.recorded, w.failed, w.payload, w.recorded)
  {}

  lemma SwapStays(w: World)
    requires HasStaged(w)
    ensures Step(w, Install(Unrestored, false, false, true)) == w.(backup := Some(w.exe), exe := w.payload.value)
  {}

  lemma Reboots(w: World)
    ensures Step(w, Boot) == w.(current := w.exe)
  {}

  lemma SeedsFirst(w: World)
    requires w.current != "" && w.current != "dev" && w.maxSeen == ""
    ensures Step(w, Seed(true, true)) == w.(maxSeen := w.current)
  {
    hide Compare;
  }

  lemma SeedsHigher(w: World)
    requires w.current != "" && w.current != "dev" && w.maxSeen != "" && Compare(w.current, w.maxSeen) > 0
    ensures Step(w, Seed(true, true)) == w.(maxSeen := w.current)
  {
    hide Compare;
  }

  function LeftInPlace(b: string, c: string): (ops: seq<Op>) {
    [CheckOf(c, VerifiedRecorded), Install(Unrestored, false, false, true), CheckOf(b, VerifiedRecorded), Boot,
     Seed(true, true)]
  }

  /**
   * Nor can the restore condition be dropped: a swap left in place is later overwritten by an older release, which
   * lowers the executable and the marker.
   */
  lemma UnrestoredSwapDowngrades(a: string, b: string, c: string)
    requires Compare(a, b) < 0 && Compare(b, c) < 0 && b != "" && c != "" && c != "dev"
    ensures var w := Run(World(a, None, a, "", "", None, ""), LeftInPlace(b, c));
      w.exe == c && w.maxSeen == c && Step(w, CARELESS).exe == b && Step(w, CARELESS).maxSeen == b
  {
    hide Compare, Run, Step, CheckOf, CARELESS;
    TotalPreorder(a, b, c);
    var w0 := World(a, None, a, "", "", None, "");
    RunFive(w0, LeftInPlace(b, c));
    Accepts(w0, c, VerifiedRecorded);
    var w1 := World(a, None, a, "", "", Some(c), c);
    var w2 := World(c, Some(a), a, "", "", Some(c), c);
    SwapStays(w1);
    Accepts(w2, b, VerifiedRecorded);
    var w3 := World(c, Some(a), a, "", "", Some(b), b);
    var w4 := World(c, Some(a), c, "", "", Some(b), b);
    Reboots(w3);
    SeedsFirst(w4);
    CarelessInstall(w4.(maxSeen := c));
  }

  lemma RunFive(w: World, ops: seq<Op>)
    requires |ops| == 5
    ensures Run(w, ops) == Step(Step(Step(Step(Step(w, ops[0]), ops[1]), ops[2]), ops[3]), ops[4])
  {
    hide Step;
    var w1 := Step(w, ops[0]);
    var w2 := Step(w1, ops[1]);
    var w3 := Step(w2, ops[2]);
    var w4 := Step(w3, ops[3]);
    assert ops[1..][1..] == ops[2..] && ops[2..][1..] == ops[3..] && ops[3..][1..] == ops[4..] && ops[4..][1..] == [];
    assert Run(w4, ops[4..]) == Step(w4, ops[4]);
    assert Run(w3, ops[3..]) == Run(w4, ops[4..]);
    assert Run(w2, ops[2..]) == Run(w3, ops[3..]);
    assert Run(w1, ops[1..]) == Run(w2, ops[2..]);
  }
}
