/** The update installer of spike-release/src/lib.rs as a machine over a disk.

    Every filesystem call is one `FsOp`. A power cut may fall between two calls or in the
    middle of one (`Torn`), so the crash-safety results speak of every disk the calls can leave. */
module Installer {
  import opened Prelude
  import opened Release

  datatype InstalledRecord = InstalledRecord(version: string, sequence: nat, artifact: Artifact)

  datatype InstallerState = InstallerState(
    client: ClientState,
    current: Option<InstalledRecord>,
    previous: Option<InstalledRecord>,
    quarantined: seq<string>)

  const INITIAL_STATE := InstallerState(ClientState(map[], map[]), None, None, [])

  // ---------- The disk ----------

  /** `state.json.tmp`: absent, half written, or complete. */
  datatype TmpFile = Absent | Partial | Whole(state: InstallerState)

  type Directory = map<string, Content>

  /** `versions/` and the two state files; `stateFile` is `None` before the first save. */
  datatype Disk = Disk(versions: map<string, Directory>, stateFile: Option<InstallerState>, tmp: TmpFile) {
    function State(): InstallerState {
      if stateFile.Some? then stateFile.value else INITIAL_STATE
    }

    function File(dir: string, name: string): Option<Content> {
      if dir in versions && name in versions[dir] then Some(versions[dir][name]) else None
    }
  }

  datatype FsOp =
    | RemoveDirAll(dir: string)
    | CreateDirAll(dir: string)
    | CopyInto(dir: string, name: string, bytes: Content)
    | RenameDir(from: string, to: string)
    | CreateTmp
    | WriteTmp(state: InstallerState)
    | RenameTmp

  function Apply(d: Disk, op: FsOp): Disk {
    match op
    case RemoveDirAll(dir) => d.(versions := d.versions - {dir})
    case CreateDirAll(dir) => if dir in d.versions then d else d.(versions := d.versions[dir := map[]])
    case CopyInto(dir, name, bytes) =>
      if dir in d.versions then d.(versions := d.versions[dir := d.versions[dir][name := bytes]]) else d
    case RenameDir(from, to) =>
      if from in d.versions then d.(versions := (d.versions - {from})[to := d.versions[from]]) else d
    case CreateTmp => d.(tmp := Partial)
    case WriteTmp(state) => d.(tmp := Whole(state))
    case RenameTmp => if d.tmp.Whole? then d.(stateFile := Some(d.tmp.state), tmp := Absent) else d
  }

  /** A disk an interrupted call can leave: a removal or a copy leaves its directory in any
      condition, a write leaves the temporary file half written; a rename is atomic. */
  ghost predicate Torn(d: Disk, op: FsOp, d': Disk) {
    match op
    case RemoveDirAll(dir) => OnlyDirectoryDiffers(d, dir, d')
    case CopyInto(dir, _, _) => OnlyDirectoryDiffers(d, dir, d')
    case CreateTmp => d' == d.(tmp := Partial)
    case WriteTmp(_) => d' == d.(tmp := Partial)
    case CreateDirAll(_) => false
    case RenameDir(_, _) => false
    case RenameTmp => false
  }

  ghost predicate OnlyDirectoryDiffers(d: Disk, dir: string, d': Disk) {
    d'.stateFile == d.stateFile && d'.tmp == d.tmp && d'.versions - {dir} == d.versions - {dir}
  }

  function Exec(d: Disk, ops: seq<FsOp>): Disk
    decreases |ops|
  {
    if ops == [] then d else Exec(Apply(d, ops[0]), ops[1..])
  }

  /** `d'` is what a power cut at any moment of `ops` (or none at all) can leave. */
  ghost predicate CrashDisk(d: Disk, ops: seq<FsOp>, d': Disk)
    decreases |ops|
  {
    || d' == d
    || (ops != [] && (Torn(d, ops[0], d') || CrashDisk(Apply(d, ops[0]), ops[1..], d')))
  }

  // ---------- The operations as plans of filesystem calls ----------

  datatype Plan = Plan(ops: seq<FsOp>, result: Result<InstalledRecord, ReleaseError>)

  /** The arguments of one call. `copied` is what the second read of the downloaded file returns:
      it may differ from `downloaded` if the file changed after the first check. */
  datatype Request = Request(
    signed: SignedManifest, name: string, downloaded: Option<Content>, copied: Content, now: nat)

  function SaveOps(st: InstallerState): seq<FsOp> {
    [CreateTmp, WriteTmp(st), RenameTmp]
  }

  function StageOps(d: Disk, version: string, name: string, bytes: Content): seq<FsOp> {
    var staging := StagingName(version);
    (if staging in d.versions then [RemoveDirAll(staging)] else [])
    + [CreateDirAll(staging), CopyInto(staging, name, bytes)]
  }

  function PublishOps(d: Disk, version: string): seq<FsOp> {
    (if version in d.versions then [RemoveDirAll(version)] else [])
    + [RenameDir(StagingName(version), version)]
  }

  function RecordInstall(st: InstallerState, key: string, rec: InstalledRecord): InstallerState {
    st.(client := ClientState(st.client.lastSequence[key := rec.sequence],
                              st.client.installedVersion[key := rec.version]),
        current := Some(rec),
        previous := st.current)
  }

  /** The checks `install` makes before it touches the disk; the artifact to install if all pass. */
  function Check(c: Crypto, target: Target, st: InstallerState, q: Request): Result<Artifact, ReleaseError> {
    match Verify(c, q.signed, target, st.client, q.now)
    case Err(e) => Err(e)
    case Ok(_) =>
      match FindArtifact(q.signed.manifest.artifacts, q.name)
      case Err(e) => Err(e)
      case Ok(art) =>
        match VerifyArtifact(c, q.downloaded, art)
        case Err(e) => Err(e)
        case Ok(_) => Ok(art)
  }

  function RecordOf(q: Request, art: Artifact): InstalledRecord {
    InstalledRecord(q.signed.manifest.version, q.signed.manifest.sequence, art)
  }

  /** The part of `install` that touches the disk: stage, check the copy, publish, save. */
  function CommitPlan(c: Crypto, target: Target, d: Disk, q: Request, art: Artifact): Plan {
    var version := q.signed.manifest.version;
    var stage := StageOps(d, version, art.name, q.copied);
    match VerifyArtifact(c, Some(q.copied), art)
    case Err(e) => Plan(stage, Err(e))
    case Ok(_) =>
      var save := SaveOps(RecordInstall(d.State(), target.Key(), RecordOf(q, art)));
      Plan(stage + PublishOps(d, version) + save, Ok(RecordOf(q, art)))
  }

  function InstallPlan(c: Crypto, target: Target, d: Disk, q: Request): Plan {
    match Check(c, target, d.State(), q)
    case Err(e) => Plan([], Err(e))
    case Ok(art) => CommitPlan(c, target, d, q, art)
  }

  function RecordRollback(st: InstallerState, key: string, prev: InstalledRecord): InstallerState {
    st.(client := st.client.(installedVersion := st.client.installedVersion[key := prev.version]),
        current := Some(prev),
        previous := None)
  }

  function RollbackPlan(c: Crypto, target: Target, d: Disk): Plan {
    var st := d.State();
    match st.previous
    case None => Plan([], Err(NoPreviousVersion))
    case Some(prev) =>
      match VerifyArtifact(c, d.File(prev.version, prev.artifact.name), prev.artifact)
      case Err(e) => Plan([], Err(e))
      case Ok(_) => Plan(SaveOps(RecordRollback(st, target.Key(), prev)), Ok(prev))
  }

  function Quarantine(st: InstallerState, version: string): InstallerState {
    st.(quarantined := st.quarantined + [version])
  }

  /** After a failed health check: a rollback and, only if that worked, quarantine. */
  function RevertPlan(c: Crypto, target: Target, d: Disk, version: string): Plan {
    var rollback := RollbackPlan(c, target, d);
    if rollback.result.Err? then rollback
    else
      var restored := Exec(d, rollback.ops);
      Plan(rollback.ops + SaveOps(Quarantine(restored.State(), version)), Err(HealthCheckFailed(version)))
  }

  function HealthPlan(c: Crypto, target: Target, d: Disk, q: Request, healthy: bool): Plan {
    var install := InstallPlan(c, target, d, q);
    if install.result.Err? || healthy then install
    else
      var revert := RevertPlan(c, target, Exec(d, install.ops), install.result.value.version);
      Plan(install.ops + revert.ops, revert.result)
  }

  // ---------- The installer object ----------

  /** `calls` records the filesystem calls made, so that the contracts can speak of power cuts. */
  class Updater {
    const target: Target
    var disk: Disk
    ghost var calls: seq<FsOp>

    constructor (target: Target, disk: Disk)
      ensures this.target == target && this.disk == disk && calls == []
    {
      this.target := target;
      this.disk := disk;
      calls := [];
    }

    method Call(op: FsOp)
      modifies this
      ensures disk == Apply(old(disk), op) && calls == old(calls) + [op]
    {
      disk := Apply(disk, op);
      calls := calls + [op];
    }

    method SaveState(st: InstallerState)
      modifies this
      ensures calls == old(calls) + SaveOps(st)
      ensures disk == Exec(old(disk), SaveOps(st)) == old(disk).(stateFile := Some(st), tmp := Absent)
    {
      SaveEffect(disk, st);
      Call(CreateTmp);
      Call(WriteTmp(st));
      Call(RenameTmp);
    }

    /** Copy the download into a fresh staging directory. */
    method Stage(version: string, name: string, bytes: Content)
      modifies this
      ensures calls == old(calls) + StageOps(old(disk), version, name, bytes)
      ensures disk == old(disk).(versions := old(disk).versions[StagingName(version) := map[name := bytes]])
    {
      var staging := StagingName(version);
      if staging in disk.versions { Call(RemoveDirAll(staging)); }
      Call(CreateDirAll(staging));
      Call(CopyInto(staging, name, bytes));
    }

    /** Replace the version's directory by the staged one. */
    method Publish(version: string)
      requires StagingName(version) in disk.versions && StagingName(version) != version
      modifies this
      ensures calls == old(calls) + PublishOps(old(disk), version)
      ensures disk == old(disk).(versions :=
        (old(disk).versions - {StagingName(version)})[version := old(disk).versions[StagingName(version)]])
    {
      var staging := StagingName(version);
      if version in disk.versions { Call(RemoveDirAll(version)); }
      Call(RenameDir(staging, version));
    }

    method CheckRequest(c: Crypto, st: InstallerState, q: Request) returns (r: Result<Artifact, ReleaseError>)
      ensures r == Check(c, target, st, q)
    {
      var verified := VerifyManifest(c, q.signed, target, st.client, q.now);
      if verified.Err? { return Err(verified.error); }
      var found := FindArtifact(q.signed.manifest.artifacts, q.name);
      if found.Err? { return Err(found.error); }
      var intact := VerifyArtifact(c, q.downloaded, found.value);
      if intact.Err? { return Err(intact.error); }
      return found;
    }

    method Commit(c: Crypto, q: Request, art: Artifact) returns (r: Result<InstalledRecord, ReleaseError>)
      requires ParseVersion(q.signed.manifest.version).Some?
      modifies this
      ensures var plan := CommitPlan(c, target, old(disk), q, art);
        r == plan.result && calls == old(calls) + plan.ops && disk == Exec(old(disk), plan.ops)
    {
      hide Exec;
      hide StageOps;
      hide SaveOps;
      hide StagingName;
      hide ParseVersion;
      hide RecordInstall;
      ghost var start := disk;
      var version := q.signed.manifest.version;
      var st := RecordInstall(disk.State(), target.Key(), RecordOf(q, art));
      Stage(version, art.name, q.copied);
      var recheck := VerifyArtifact(c, disk.File(StagingName(version), art.name), art);
      if recheck.Err? {
        StageEffect(start, version, art.name, q.copied);
        return Err(recheck.error);
      }
      StagingIsNotAVersion(version);
      Publish(version);
      SaveState(st);
      MoveDirectory(start.versions, StagingName(version), version, map[art.name := q.copied]);
      InstallEffect(start, version, art.name, q.copied, st);
      return Ok(RecordOf(q, art));
    }

    method Install(c: Crypto, q: Request) returns (r: Result<InstalledRecord, ReleaseError>)
      modifies this
      ensures var plan := InstallPlan(c, target, old(disk), q);
        r == plan.result && calls == old(calls) + plan.ops && disk == Exec(old(disk), plan.ops)
    {
      var checked := CheckRequest(c, disk.State(), q);
      if checked.Err? { return Err(checked.error); }
      r := Commit(c, q, checked.value);
    }

    method Rollback(c: Crypto) returns (r: Result<InstalledRecord, ReleaseError>)
      modifies this
      ensures var plan := RollbackPlan(c, target, old(disk));
        r == plan.result && calls == old(calls) + plan.ops && disk == Exec(old(disk), plan.ops)
    {
      var st := disk.State();
      if st.previous.None? { return Err(NoPreviousVersion); }
      var prev := st.previous.value;
      var intact := VerifyArtifact(c, disk.File(prev.version, prev.artifact.name), prev.artifact);
      if intact.Err? { return Err(intact.error); }
      SaveState(RecordRollback(st, target.Key(), prev));
      return Ok(prev);
    }

    method Revert(c: Crypto, version: string) returns (r: Result<InstalledRecord, ReleaseError>)
      modifies this
      ensures var plan := RevertPlan(c, target, old(disk), version);
        r == plan.result && calls == old(calls) + plan.ops && disk == Exec(old(disk), plan.ops)
    {
      ghost var start := disk;
      var back := Rollback(c);
      if back.Err? { return back; }
      var st := disk.State();
      SaveState(Quarantine(st, version));
      ExecAppend(start, RollbackPlan(c, target, start).ops, SaveOps(Quarantine(st, version)));
      return Err(HealthCheckFailed(version));
    }

    method InstallWithHealthCheck(c: Crypto, q: Request, healthy: bool)
      returns (r: Result<InstalledRecord, ReleaseError>)
      modifies this
      ensures var plan := HealthPlan(c, target, old(disk), q, healthy);
        r == plan.result && calls == old(calls) + plan.ops && disk == Exec(old(disk), plan.ops)
    {
      hide InstallPlan;
      hide RevertPlan;
      ghost var start := disk;
      r := Install(c, q);
      if r.Err? || healthy { return; }
      var version := r.value.version;
      ghost var installed := disk;
      r := Revert(c, version);
      ExecAppend(start, InstallPlan(c, target, start, q).ops, RevertPlan(c, target, installed, version).ops);
    }
  }

  // ---------- What the plans do to the disk ----------

  lemma {:induction false} ExecAppend(d: Disk, a: seq<FsOp>, b: seq<FsOp>)
    ensures Exec(d, a + b) == Exec(Exec(d, a), b)
    decreases |a|
  {
    if a == [] {
      assert a + b == b;
    } else {
      assert (a + b)[1..] == a[1..] + b;
      ExecAppend(Apply(d, a[0]), a[1..], b);
    }
  }

  lemma ExecTwo(d: Disk, a: FsOp, b: FsOp)
    ensures Exec(d, [a, b]) == Apply(Apply(d, a), b)
  {
    assert [a, b][1..] == [b];
    assert [b][1..] == [];
    assert Exec(Apply(d, a), [b]) == Exec(Apply(Apply(d, a), b), []);
  }

  lemma ExecThree(d: Disk, a: FsOp, b: FsOp, c: FsOp)
    ensures Exec(d, [a, b, c]) == Apply(Apply(Apply(d, a), b), c)
  {
    assert [a, b, c][1..] == [b, c];
    ExecTwo(Apply(d, a), b, c);
  }

  lemma SaveEffect(d: Disk, st: InstallerState)
    ensures Exec(d, SaveOps(st)) == d.(stateFile := Some(st), tmp := Absent)
  {
    ExecThree(d, CreateTmp, WriteTmp(st), RenameTmp);
  }

  /** Whatever an earlier interrupted install left in the staging directory is gone. */
  lemma StageEffect(d: Disk, version: string, name: string, bytes: Content)
    ensures Exec(d, StageOps(d, version, name, bytes))
         == d.(versions := d.versions[StagingName(version) := map[name := bytes]])
  {
    var s := StagingName(version);
    FreshDirectory(d.versions, s, name, bytes);
    var create, copy := CreateDirAll(s), CopyInto(s, name, bytes);
    if s in d.versions {
      assert StageOps(d, version, name, bytes) == [RemoveDirAll(s), create, copy];
      ExecThree(d, RemoveDirAll(s), create, copy);
    } else {
      assert StageOps(d, version, name, bytes) == [create, copy];
      ExecTwo(d, create, copy);
    }
  }

  lemma FreshDirectory(m: map<string, Directory>, dir: string, name: string, bytes: Content)
    ensures (m - {dir})[dir := map[]][dir := map[name := bytes]] == m[dir := map[name := bytes]]
    ensures m[dir := map[]][dir := map[name := bytes]] == m[dir := map[name := bytes]]
  {}

  lemma PublishEffect(d: Disk, version: string, name: string, bytes: Content)
    requires ParseVersion(version).Some?
    ensures Exec(d, StageOps(d, version, name, bytes) + PublishOps(d, version))
         == d.(versions := (d.versions - {StagingName(version)})[version := map[name := bytes]])
  {
    hide StageOps;
    var s := StagingName(version);
    StagingIsNotAVersion(version);
    hide StagingName;
    hide ParseVersion;
    StageEffect(d, version, name, bytes);
    ExecAppend(d, StageOps(d, version, name, bytes), PublishOps(d, version));
    var staged := Exec(d, StageOps(d, version, name, bytes));
    MoveDirectory(d.versions, s, version, map[name := bytes]);
    if version in d.versions {
      assert PublishOps(d, version) == [RemoveDirAll(version), RenameDir(s, version)];
      ExecTwo(staged, RemoveDirAll(version), RenameDir(s, version));
    } else {
      assert PublishOps(d, version) == [RenameDir(s, version)];
      assert [RenameDir(s, version)][1..] == [];
      assert Exec(staged, [RenameDir(s, version)]) == Exec(Apply(staged, RenameDir(s, version)), []);
    }
  }

  lemma MoveDirectory(m: map<string, Directory>, from: string, to: string, files: Directory)
    requires from != to
    ensures var put := m[from := files];
      && (put - {from})[to := files] == (m - {from})[to := files]
      && (put - {to} - {from})[to := files] == (m - {from})[to := files]
  {}

  /** The disk a completed install leaves, given the state it records. */
  function Published(d: Disk, version: string, name: string, bytes: Content, st: InstallerState): Disk {
    Disk((d.versions - {StagingName(version)})[version := map[name := bytes]], Some(st), Absent)
  }

  lemma InstallEffect(d: Disk, version: string, name: string, bytes: Content, st: InstallerState)
    requires ParseVersion(version).Some?
    ensures Exec(d, StageOps(d, version, name, bytes) + PublishOps(d, version) + SaveOps(st))
         == Published(d, version, name, bytes, st)
  {
    var moves := StageOps(d, version, name, bytes) + PublishOps(d, version);
    PublishEffect(d, version, name, bytes);
    ExecAppend(d, moves, SaveOps(st));
    SaveEffect(Exec(d, moves), st);
  }
}
