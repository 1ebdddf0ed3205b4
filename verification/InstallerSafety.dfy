/** Crash safety, anti-replay and rollback of the installer, over any run of its operations. */
module InstallerSafety {
  import opened Prelude
  import opened Release
  import opened Installer

  // ---------- Invariants ----------

  /** The last accepted sequence number, -1 before the first install. */
  function LastSequence(st: InstallerState, key: string): int {
    if key in st.client.lastSequence then st.client.lastSequence[key] else -1
  }

  ghost predicate StateInv(st: InstallerState, key: string) {
    match st.current
    case None => st.previous.None? && key !in st.client.lastSequence && key !in st.client.installedVersion
    case Some(cur) =>
      && key in st.client.installedVersion && st.client.installedVersion[key] == cur.version
      && ParseVersion(cur.version).Some?
      && cur.sequence <= LastSequence(st, key)
      && (st.previous.Some? ==>
            var prev := st.previous.value;
            && ParseVersion(prev.version).Some?
            && !VersionLess(ParseVersion(cur.version).value, ParseVersion(prev.version).value)
            && prev.sequence < cur.sequence)
  }

  /** The file the record names is there, with the recorded size and hash. */
  predicate RecordIntact(c: Crypto, d: Disk, rec: Option<InstalledRecord>) {
    rec.Some? ==>
      var dir, art := rec.value.version, rec.value.artifact;
      && dir in d.versions && art.name in d.versions[dir]
      && |d.versions[dir][art.name]| == art.size && c.hash(d.versions[dir][art.name]) == art.sha256
  }

  /** Every artifact `state.json` names is. */
  predicate AllIntact(c: Crypto, d: Disk) {
    RecordIntact(c, d, d.State().current) && RecordIntact(c, d, d.State().previous)
  }

  function RecordedVersions(st: InstallerState): set<string> {
    (if st.current.Some? then {st.current.value.version} else {})
    + (if st.previous.Some? then {st.previous.value.version} else {})
  }

  // ---------- Power cuts ----------

  lemma {:induction false} CrashAppend(d: Disk, a: seq<FsOp>, b: seq<FsOp>, d': Disk)
    ensures CrashDisk(d, a + b, d') <==> CrashDisk(d, a, d') || CrashDisk(Exec(d, a), b, d')
    decreases |a|
  {
    if a == [] {
      assert a + b == b;
    } else {
      assert (a + b)[0] == a[0] && (a + b)[1..] == a[1..] + b;
      CrashAppend(Apply(d, a[0]), a[1..], b, d');
    }
  }

  /** The call neither touches a protected directory nor replaces `state.json`. */
  predicate Harmless(op: FsOp, keep: set<string>) {
    match op
    case RemoveDirAll(dir) => dir !in keep
    case CreateDirAll(dir) => dir !in keep
    case CopyInto(dir, _, _) => dir !in keep
    case RenameDir(from, to) => from !in keep && to !in keep
    case CreateTmp => true
    case WriteTmp(_) => true
    case RenameTmp => false
  }

  ghost predicate SameOn(d: Disk, d': Disk, keep: set<string>) {
    && d'.stateFile == d.stateFile
    && forall dir :: dir in keep ==>
         (dir in d'.versions <==> dir in d.versions) && (dir in d.versions ==> d'.versions[dir] == d.versions[dir])
  }

  lemma HarmlessStep(d: Disk, op: FsOp, d': Disk, keep: set<string>)
    requires Harmless(op, keep) && (d' == Apply(d, op) || Torn(d, op, d'))
    ensures SameOn(d, d', keep)
  {
    if Torn(d, op, d') && (op.RemoveDirAll? || op.CopyInto?) {
      forall dir | dir in keep
        ensures (dir in d'.versions <==> dir in d.versions) && (dir in d.versions ==> d'.versions[dir] == d.versions[dir])
      {
        assert dir in d'.versions - {op.dir} <==> dir in d.versions - {op.dir};
        if dir in d.versions {
          assert (d'.versions - {op.dir})[dir] == (d.versions - {op.dir})[dir];
        }
      }
    }
  }

  lemma {:induction false} HarmlessCrash(d: Disk, ops: seq<FsOp>, d': Disk, keep: set<string>)
    requires CrashDisk(d, ops, d')
    requires forall i :: 0 <= i < |ops| ==> Harmless(ops[i], keep)
    ensures SameOn(d, d', keep)
    decreases |ops|
  {
    if d' != d {
      if Torn(d, ops[0], d') {
        HarmlessStep(d, ops[0], d', keep);
      } else {
        HarmlessStep(d, ops[0], Apply(d, ops[0]), keep);
        HarmlessCrash(Apply(d, ops[0]), ops[1..], d', keep);
      }
    }
  }

  /** Saving the state is atomic: the old state or the new one, the artifacts untouched. */
  lemma SaveCrash(d: Disk, st: InstallerState, d': Disk)
    requires CrashDisk(d, SaveOps(st), d')
    ensures d'.versions == d.versions
    ensures d'.stateFile == d.stateFile || d'.stateFile == Some(st)
  {
    var ops := SaveOps(st);
    assert ops[1..] == [WriteTmp(st), RenameTmp] && ops[1..][1..] == [RenameTmp];
    var d1 := Apply(d, CreateTmp);
    var d2 := Apply(d1, WriteTmp(st));
    if CrashDisk(d1, ops[1..], d') && d' != d1 && !Torn(d1, WriteTmp(st), d') && d' != d2 {
      assert CrashDisk(d2, [RenameTmp], d');
      assert [RenameTmp][1..] == [];
      assert d' == Apply(d2, RenameTmp);
    }
  }

  /** Every directory move of an install is harmless to the other versions. */
  lemma MovesAreHarmless(d: Disk, version: string, name: string, bytes: Content, keep: set<string>)
    requires version !in keep && StagingName(version) !in keep
    ensures var moves := StageOps(d, version, name, bytes) + PublishOps(d, version);
      forall i :: 0 <= i < |moves| ==> Harmless(moves[i], keep)
  {}

  /** Stopping `install` anywhere leaves the old or the new state, and every directory
      other than the new version's is as it was. */
  lemma InstallCrash(c: Crypto, target: Target, d: Disk, q: Request, d': Disk, keep: set<string>)
    requires var v := q.signed.manifest.version; v !in keep && StagingName(v) !in keep
    requires CrashDisk(d, InstallPlan(c, target, d, q).ops, d')
    ensures SameOn(d, d', keep)
         || (InstallPlan(c, target, d, q).result.Ok?
             && SameOn(Exec(d, InstallPlan(c, target, d, q).ops), d', keep)
             && d'.versions == Exec(d, InstallPlan(c, target, d, q).ops).versions)
  {
    hide Check;
    var plan := InstallPlan(c, target, d, q);
    var checked := Check(c, target, d.State(), q);
    if checked.Ok? {
      CheckedVersion(c, target, d.State(), q);
      var v := q.signed.manifest.version;
      var art := checked.value;
      MovesAreHarmless(d, v, art.name, q.copied, keep);
      var stage, publish := StageOps(d, v, art.name, q.copied), PublishOps(d, v);
      if plan.result.Err? {
        assert plan.ops == stage;
        assert forall i :: 0 <= i < |stage| ==> stage[i] == (stage + publish)[i];
        HarmlessCrash(d, stage, d', keep);
      } else {
        var st := RecordInstall(d.State(), target.Key(), RecordOf(q, art));
        CrashAppend(d, stage + publish, SaveOps(st), d');
        if CrashDisk(d, stage + publish, d') {
          HarmlessCrash(d, stage + publish, d', keep);
        } else {
          var d1 := Exec(d, stage + publish);
          CrashSelf(d, stage + publish, []);
          HarmlessCrash(d, stage + publish, d1, keep);
          SaveCrash(d1, st, d');
          InstallEffect(d, v, art.name, q.copied, st);
          PublishEffect(d, v, art.name, q.copied);
        }
      }
    } else {
      assert plan.ops == [];
    }
  }

  /** Stopping after the first calls is one of the power cuts. */
  lemma CrashSelf(d: Disk, a: seq<FsOp>, b: seq<FsOp>)
    ensures CrashDisk(d, a + b, Exec(d, a))
    ensures CrashDisk(d, a, Exec(d, a))
  {
    CrashAppend(d, a, b, Exec(d, a));
    CrashAppend(d, a, [], Exec(d, a));
    assert a + [] == a;
  }

  // ---------- Crash safety of install ----------

  lemma RecordedAreVersions(st: InstallerState, key: string, v: string)
    requires StateInv(st, key)
    ensures StagingName(v) !in RecordedVersions(st)
  {
    StagingIsNotAVersion(v);
  }

  lemma SameOnIntact(c: Crypto, d: Disk, d': Disk, keep: set<string>, rec: Option<InstalledRecord>)
    requires SameOn(d, d', keep) && RecordIntact(c, d, rec)
    requires rec.Some? ==> rec.value.version in keep
    ensures RecordIntact(c, d', rec)
  {}

  /** A power cut during an install of a version string not recorded: `state.json` is the old or
      the new one, and everything it names is intact. */
  lemma CrashSafe(c: Crypto, target: Target, d: Disk, q: Request, d': Disk)
    requires StateInv(d.State(), target.Key()) && AllIntact(c, d)
    requires q.signed.manifest.version !in RecordedVersions(d.State())
    requires CrashDisk(d, InstallPlan(c, target, d, q).ops, d')
    ensures AllIntact(c, d')
    ensures d'.stateFile == d.stateFile || d'.stateFile == Exec(d, InstallPlan(c, target, d, q).ops).stateFile
  {
    hide Check;
    var v := q.signed.manifest.version;
    var keep := RecordedVersions(d.State());
    RecordedAreVersions(d.State(), target.Key(), v);
    InstallCrash(c, target, d, q, d', keep);
    if SameOn(d, d', keep) {
      SameOnIntact(c, d, d', keep, d.State().current);
      SameOnIntact(c, d, d', keep, d.State().previous);
    } else {
      var art := Check(c, target, d.State(), q).value;
      var st := RecordInstall(d.State(), target.Key(), RecordOf(q, art));
      CheckedVersion(c, target, d.State(), q);
      InstallEffect(d, v, art.name, q.copied, st);
      assert d'.State() == st;
      assert d'.File(v, art.name) == Some(q.copied);
      if d.State().current.Some? {
        var cur := d.State().current.value;
        assert d'.File(cur.version, cur.artifact.name) == d.File(cur.version, cur.artifact.name);
      }
    }
  }

  /** With the version string of a recorded version, the directory that version's record names is
      deleted first: a power cut right after loses the artifact. */
  lemma ReinstallUnsafe(c: Crypto, target: Target, d: Disk, q: Request) returns (d': Disk)
    requires StateInv(d.State(), target.Key()) && AllIntact(c, d)
    requires InstallPlan(c, target, d, q).result.Ok?
    requires q.signed.manifest.version in RecordedVersions(d.State())
    ensures CrashDisk(d, InstallPlan(c, target, d, q).ops, d') && !AllIntact(c, d')
  {
    hide Check;
    var v := q.signed.manifest.version;
    var art := Check(c, target, d.State(), q).value;
    var stage := StageOps(d, v, art.name, q.copied);
    var save := SaveOps(RecordInstall(d.State(), target.Key(), RecordOf(q, art)));
    assert v in d.versions;
    assert PublishOps(d, v) == [RemoveDirAll(v), RenameDir(StagingName(v), v)];
    var rest := [RenameDir(StagingName(v), v)] + save;
    assert stage + PublishOps(d, v) + save == stage + [RemoveDirAll(v)] + rest;
    d' := Exec(d, stage + [RemoveDirAll(v)]);
    CrashSelf(d, stage + [RemoveDirAll(v)], rest);
    ExecAppend(d, stage, [RemoveDirAll(v)]);
    assert [RemoveDirAll(v)][1..] == [];
    StageEffect(d, v, art.name, q.copied);
  }

  /** Crash safety holds exactly when the manifest's version string is not one the state records. */
  lemma CrashSafeExactly(c: Crypto, target: Target, d: Disk, q: Request)
    requires StateInv(d.State(), target.Key()) && AllIntact(c, d)
    requires InstallPlan(c, target, d, q).result.Ok?
    ensures (forall d' :: CrashDisk(d, InstallPlan(c, target, d, q).ops, d') ==> AllIntact(c, d'))
       <==> q.signed.manifest.version !in RecordedVersions(d.State())
  {
    if q.signed.manifest.version in RecordedVersions(d.State()) {
      var d' := ReinstallUnsafe(c, target, d, q);
    } else {
      forall d' | CrashDisk(d, InstallPlan(c, target, d, q).ops, d')
        ensures AllIntact(c, d')
      {
        CrashSafe(c, target, d, q, d');
      }
    }
  }

  /** Once recorded, the same manifest is a replay. */
  lemma AgainIsReplay(c: Crypto, target: Target, st: InstallerState, q: Request, art: Artifact)
    requires Check(c, target, st, q).Ok?
    ensures Check(c, target, RecordInstall(st, target.Key(), RecordOf(q, art)), q)
         == Err(Replay(q.signed.manifest.sequence, q.signed.manifest.sequence))
  {}

  /** After a power cut the same call works again if the state is still the old one (whatever the
      cut left behind), and is refused as a replay if the state is already the new one. */
  lemma RetryAfterCrash(c: Crypto, target: Target, d: Disk, q: Request, d': Disk)
    requires InstallPlan(c, target, d, q).result.Ok?
    requires CrashDisk(d, InstallPlan(c, target, d, q).ops, d')
    ensures var again := InstallPlan(c, target, d', q);
      var done := Exec(d', again.ops);
      if d'.State() == d.State() then
        && again.result == InstallPlan(c, target, d, q).result
        && done.stateFile == Exec(d, InstallPlan(c, target, d, q).ops).stateFile
        && done.File(q.signed.manifest.version, again.result.value.artifact.name) == Some(q.copied)
      else again.ops == [] && again.result == Err(Replay(q.signed.manifest.sequence, q.signed.manifest.sequence))
  {
    CheckedVersion(c, target, d.State(), q);
    var v := q.signed.manifest.version;
    var art := Check(c, target, d.State(), q).value;
    var st := RecordInstall(d.State(), target.Key(), RecordOf(q, art));
    AgainIsReplay(c, target, d.State(), q, art);
    InstallCrash(c, target, d, q, d', {});
    hide Check;
    hide CrashDisk;
    hide StageOps;
    hide PublishOps;
    hide SaveOps;
    hide Exec;
    InstallEffect(d, v, art.name, q.copied, st);
    InstallEffect(d', v, art.name, q.copied, st);
  }

  lemma CheckedVersion(c: Crypto, target: Target, st: InstallerState, q: Request)
    requires Check(c, target, st, q).Ok?
    ensures ParseVersion(q.signed.manifest.version).Some?
  {}

  // ---------- What one event does to the persisted state ----------

  datatype Event =
    | Install(q: Request)
    | HealthInstall(q: Request, healthy: bool)
    | Rollback
    | Decay  // the artifact directories change behind the installer's back

  ghost predicate Step(c: Crypto, target: Target, d: Disk, ev: Event, d': Disk) {
    match ev
    case Install(q) => CrashDisk(d, InstallPlan(c, target, d, q).ops, d')
    case HealthInstall(q, healthy) => CrashDisk(d, HealthPlan(c, target, d, q, healthy).ops, d')
    case Rollback => CrashDisk(d, RollbackPlan(c, target, d).ops, d')
    case Decay => d'.stateFile == d.stateFile
  }

  lemma AcceptedState(c: Crypto, target: Target, st: InstallerState, q: Request)
    requires StateInv(st, target.Key()) && Check(c, target, st, q).Ok?
    ensures var st' := RecordInstall(st, target.Key(), RecordOf(q, Check(c, target, st, q).value));
      && StateInv(st', target.Key())
      && LastSequence(st', target.Key()) == q.signed.manifest.sequence > LastSequence(st, target.Key())
  {}

  lemma InstallStates(c: Crypto, target: Target, d: Disk, q: Request, d': Disk)
    requires CrashDisk(d, InstallPlan(c, target, d, q).ops, d')
    ensures d'.stateFile == d.stateFile
         || (Check(c, target, d.State(), q).Ok?
             && d'.State() == RecordInstall(d.State(), target.Key(), RecordOf(q, Check(c, target, d.State(), q).value)))
  {
    InstallCrash(c, target, d, q, d', {});
    if d'.stateFile != d.stateFile {
      var art := Check(c, target, d.State(), q).value;
      InstallEffect(d, q.signed.manifest.version, art.name, q.copied,
                    RecordInstall(d.State(), target.Key(), RecordOf(q, art)));
    }
  }

  lemma RollbackStates(c: Crypto, target: Target, d: Disk, d': Disk)
    requires CrashDisk(d, RollbackPlan(c, target, d).ops, d')
    ensures d'.stateFile == d.stateFile
         || (d.State().previous.Some?
             && d'.State() == RecordRollback(d.State(), target.Key(), d.State().previous.value))
  {
    if RollbackPlan(c, target, d).result.Ok? {
      SaveCrash(d, RecordRollback(d.State(), target.Key(), d.State().previous.value), d');
    }
  }

  lemma CompletedIsACrash(d: Disk, ops: seq<FsOp>)
    ensures CrashDisk(d, ops, Exec(d, ops))
  {
    CrashSelf(d, ops, []);
  }

  /** Any interrupted or completed event keeps the state invariant; the last sequence stays, or
      rises to the sequence of the event's manifest. */
  lemma StepInv(c: Crypto, target: Target, d: Disk, ev: Event, d': Disk)
    requires StateInv(d.State(), target.Key()) && Step(c, target, d, ev, d')
    ensures StateInv(d'.State(), target.Key())
    ensures LastSequence(d'.State(), target.Key()) == LastSequence(d.State(), target.Key())
         || ((ev.Install? || ev.HealthInstall?)
             && LastSequence(d'.State(), target.Key()) == ev.q.signed.manifest.sequence
                > LastSequence(d.State(), target.Key()))
  {
    match ev
    case Decay =>
    case Rollback => RollbackStates(c, target, d, d');
    case Install(q) => InstallStepInv(c, target, d, q, d');
    case HealthInstall(q, healthy) => HealthStepInv(c, target, d, q, healthy, d');
  }

  lemma HealthStepInv(c: Crypto, target: Target, d: Disk, q: Request, healthy: bool, d': Disk)
    requires StateInv(d.State(), target.Key()) && CrashDisk(d, HealthPlan(c, target, d, q, healthy).ops, d')
    ensures StateInv(d'.State(), target.Key())
    ensures LastSequence(d'.State(), target.Key()) == LastSequence(d.State(), target.Key())
         || LastSequence(d'.State(), target.Key()) == q.signed.manifest.sequence > LastSequence(d.State(), target.Key())
  {
    hide InstallPlan;
    hide CrashDisk;
    hide HealthPlan;
    hide RollbackPlan;
    hide Exec;
    var install := InstallPlan(c, target, d, q);
    if CrashDisk(d, install.ops, d') {
      InstallStepInv(c, target, d, q, d');
    } else {
      var d1 := Exec(d, install.ops);
      CompletedIsACrash(d, install.ops);
      InstallStepInv(c, target, d, q, d1);
      HealthCrash(c, target, d, q, healthy, d');
      var rollback := RollbackPlan(c, target, d1);
      var d2 := Exec(d1, rollback.ops);
      CompletedIsACrash(d1, rollback.ops);
      RollbackStates(c, target, d1, d2);
      if CrashDisk(d1, rollback.ops, d') {
        RollbackStates(c, target, d1, d');
      } else {
        SaveCrash(d2, Quarantine(d2.State(), q.signed.manifest.version), d');
      }
    }
  }

  /** A power cut of the whole call is one of its install, its rollback or its last save. */
  lemma HealthCrash(c: Crypto, target: Target, d: Disk, q: Request, healthy: bool, d': Disk)
    requires CrashDisk(d, HealthPlan(c, target, d, q, healthy).ops, d')
    ensures var install := InstallPlan(c, target, d, q);
      var d1 := Exec(d, install.ops);
      var rollback := RollbackPlan(c, target, d1);
      var d2 := Exec(d1, rollback.ops);
      || CrashDisk(d, install.ops, d')
      || CrashDisk(d1, rollback.ops, d')
      || CrashDisk(d2, SaveOps(Quarantine(d2.State(), q.signed.manifest.version)), d')
  {
    var install := InstallPlan(c, target, d, q);
    var v := q.signed.manifest.version;
    var d1 := Exec(d, install.ops);
    var rollback := RollbackPlan(c, target, d1);
    CrashAppend(d, install.ops, RevertPlan(c, target, d1, v).ops, d');
    CrashAppend(d1, rollback.ops, SaveOps(Quarantine(Exec(d1, rollback.ops).State(), v)), d');
  }

  lemma InstallStepInv(c: Crypto, target: Target, d: Disk, q: Request, d': Disk)
    requires StateInv(d.State(), target.Key()) && CrashDisk(d, InstallPlan(c, target, d, q).ops, d')
    ensures StateInv(d'.State(), target.Key())
    ensures LastSequence(d'.State(), target.Key()) == LastSequence(d.State(), target.Key())
         || LastSequence(d'.State(), target.Key()) == q.signed.manifest.sequence > LastSequence(d.State(), target.Key())
  {
    InstallStates(c, target, d, q, d');
    if d'.stateFile != d.stateFile {
      AcceptedState(c, target, d.State(), q);
    }
  }

  // ---------- Runs ----------

  /** A run: `disks[i]` is the disk before `events[i]`. Any event may be cut short. */
  ghost predicate Run(c: Crypto, target: Target, disks: seq<Disk>, events: seq<Event>) {
    && |disks| == |events| + 1
    && disks[0].stateFile == None
    && forall i :: 0 <= i < |events| ==> StepAt(c, target, disks, events, i)
  }

  ghost predicate StepAt(c: Crypto, target: Target, disks: seq<Disk>, events: seq<Event>, i: int)
    requires 0 <= i < |events| && |disks| == |events| + 1
  {
    Step(c, target, disks[i], events[i], disks[i + 1])
  }

  /** Event `i` of the run got its manifest accepted: the recorded sequence moved. */
  ghost predicate AcceptedAt(target: Target, disks: seq<Disk>, i: int)
    requires 0 <= i < |disks| - 1
  {
    LastSequence(disks[i + 1].State(), target.Key()) != LastSequence(disks[i].State(), target.Key())
  }

  /** In every reachable state the invariant holds and the last sequence never went down. */
  lemma {:induction false} RunInv(c: Crypto, target: Target, disks: seq<Disk>, events: seq<Event>, i: nat, j: nat)
    requires Run(c, target, disks, events) && i <= j < |disks|
    ensures StateInv(disks[j].State(), target.Key())
    ensures LastSequence(disks[i].State(), target.Key()) <= LastSequence(disks[j].State(), target.Key())
    decreases j
  {
    if j == 0 {
    } else {
      RunInv(c, target, disks, events, if i < j then i else j - 1, j - 1);
      assert StepAt(c, target, disks, events, j - 1);
      StepInv(c, target, disks[j - 1], events[j - 1], disks[j]);
    }
  }

  predicate CarriesManifest(ev: Event) {
    ev.Install? || ev.HealthInstall?
  }

  lemma AcceptedSequence(c: Crypto, target: Target, disks: seq<Disk>, events: seq<Event>, i: nat)
    requires Run(c, target, disks, events) && i < |events| && AcceptedAt(target, disks, i)
    ensures CarriesManifest(events[i])
    ensures LastSequence(disks[i].State(), target.Key()) < events[i].q.signed.manifest.sequence
         == LastSequence(disks[i + 1].State(), target.Key())
  {
    RunInv(c, target, disks, events, i, i);
    assert StepAt(c, target, disks, events, i);
    StepInv(c, target, disks[i], events[i], disks[i + 1]);
  }

  /** Accepted sequence numbers strictly increase, so no manifest is ever accepted twice. */
  lemma NoReplay(c: Crypto, target: Target, disks: seq<Disk>, events: seq<Event>, i: nat, j: nat)
    requires Run(c, target, disks, events) && i < j < |events|
    requires AcceptedAt(target, disks, i) && AcceptedAt(target, disks, j)
    ensures CarriesManifest(events[i]) && CarriesManifest(events[j])
    ensures events[i].q.signed.manifest.sequence < events[j].q.signed.manifest.sequence
    ensures events[i].q.signed.manifest != events[j].q.signed.manifest
  {
    AcceptedSequence(c, target, disks, events, i);
    AcceptedSequence(c, target, disks, events, j);
    RunInv(c, target, disks, events, i + 1, j);
  }

  /** An install that returns Ok has raised the sequence and kept the old record as `previous`. */
  lemma SuccessfulInstall(c: Crypto, target: Target, d: Disk, q: Request)
    requires StateInv(d.State(), target.Key()) && InstallPlan(c, target, d, q).result.Ok?
    ensures var done := Exec(d, InstallPlan(c, target, d, q).ops).State();
      && done.current == Some(InstallPlan(c, target, d, q).result.value) && done.previous == d.State().current
      && LastSequence(d.State(), target.Key()) < LastSequence(done, target.Key()) == q.signed.manifest.sequence
  {
    var art := Check(c, target, d.State(), q).value;
    InstallEffect(d, q.signed.manifest.version, art.name, q.copied,
                  RecordInstall(d.State(), target.Key(), RecordOf(q, art)));
    AcceptedState(c, target, d.State(), q);
  }

  /** An install that returns an error, stopped anywhere, has changed nothing but its staging directory. */
  lemma RefusedInstall(c: Crypto, target: Target, d: Disk, q: Request, d': Disk)
    requires InstallPlan(c, target, d, q).result.Err?
    requires CrashDisk(d, InstallPlan(c, target, d, q).ops, d')
    ensures d'.stateFile == d.stateFile
    ensures var staging := StagingName(q.signed.manifest.version);
      d'.versions - {staging} == d.versions - {staging}
  {
    var staging := StagingName(q.signed.manifest.version);
    var keep := d.versions.Keys + d'.versions.Keys - {staging};
    var ops := InstallPlan(c, target, d, q).ops;
    RefusedIsHarmless(c, target, d, q, keep);
    hide InstallPlan;
    HarmlessCrash(d, ops, d', keep);
    hide CrashDisk;
    MapsAgree(d.versions - {staging}, d'.versions - {staging}, keep);
  }

  /** A failed install leaves the disk as it was exactly when it fails before anything is copied, or when
      the very staging directory it leaves behind was there already. */
  lemma RefusedLeavesNothingExactly(c: Crypto, target: Target, d: Disk, q: Request)
    requires InstallPlan(c, target, d, q).result.Err?
    ensures var checked, staging := Check(c, target, d.State(), q), StagingName(q.signed.manifest.version);
      Exec(d, InstallPlan(c, target, d, q).ops) == d <==>
        checked.Err? || (staging in d.versions && d.versions[staging] == map[checked.value.name := q.copied])
  {
    var checked, version := Check(c, target, d.State(), q), q.signed.manifest.version;
    hide Check;
    if checked.Ok? {
      StageEffect(d, version, checked.value.name, q.copied);
      PutChanges(d.versions, StagingName(version), map[checked.value.name := q.copied]);
      hide StageOps;
      hide StagingName;
    }
  }

  lemma PutChanges(m: map<string, Directory>, dir: string, files: Directory)
    ensures m[dir := files] == m <==> dir in m && m[dir] == files
  {
    if m[dir := files] == m { assert dir in m[dir := files] && m[dir := files][dir] == files; }
  }

  /** `install` never reads the quarantine list. */
  lemma QuarantineUnread(c: Crypto, target: Target, d: Disk, st: InstallerState, quarantined: seq<string>, q: Request)
    requires d.stateFile == Some(st)
    ensures var d' := d.(stateFile := Some(st.(quarantined := quarantined)));
      && Check(c, target, d'.State(), q) == Check(c, target, d.State(), q)
      && InstallPlan(c, target, d', q).result == InstallPlan(c, target, d, q).result
  {}

  lemma RefusedIsHarmless(c: Crypto, target: Target, d: Disk, q: Request, keep: set<string>)
    requires InstallPlan(c, target, d, q).result.Err? && StagingName(q.signed.manifest.version) !in keep
    ensures var ops := InstallPlan(c, target, d, q).ops; forall i :: 0 <= i < |ops| ==> Harmless(ops[i], keep)
  {
    hide Check;
  }

  lemma MapsAgree(m: map<string, Directory>, m': map<string, Directory>, keys: set<string>)
    requires m.Keys <= keys && m'.Keys <= keys
    requires forall k :: k in keys ==> (k in m' <==> k in m) && (k in m ==> m'[k] == m[k])
    ensures m == m'
  {
    assert forall k :: k in m ==> k in m' && m'[k] == m[k];
    assert forall k :: k in m' ==> k in m;
  }

  // ---------- Rollback and health check ----------

  /** Two rollbacks in a row: the second always fails, whatever happened to the files between. */
  lemma SecondRollbackFails(c: Crypto, target: Target, d: Disk, between: Disk)
    requires RollbackPlan(c, target, d).result.Ok?
    requires between.stateFile == Exec(d, RollbackPlan(c, target, d).ops).stateFile
    ensures RollbackPlan(c, target, between) == Plan([], Err(NoPreviousVersion))
  {
    SaveEffect(d, RecordRollback(d.State(), target.Key(), d.State().previous.value));
  }

  /** Is the predecessor's file still there once the new version is in place? */
  predicate PredecessorSurvives(c: Crypto, d: Disk, q: Request, art: Artifact) {
    && d.State().current.Some?
    && var cur := d.State().current.value;
       q.signed.manifest.version != cur.version
       || (art.name == cur.artifact.name && |q.copied| == cur.artifact.size && c.hash(q.copied) == cur.artifact.sha256)
  }

  lemma RollbackPossible(c: Crypto, target: Target, d: Disk, q: Request)
    requires StateInv(d.State(), target.Key()) && AllIntact(c, d)
    requires InstallPlan(c, target, d, q).result.Ok?
    ensures RollbackPlan(c, target, Exec(d, InstallPlan(c, target, d, q).ops)).result.Ok?
       <==> PredecessorSurvives(c, d, q, InstallPlan(c, target, d, q).result.value.artifact)
  {
    var v := q.signed.manifest.version;
    var art := Check(c, target, d.State(), q).value;
    InstallEffect(d, v, art.name, q.copied, RecordInstall(d.State(), target.Key(), RecordOf(q, art)));
    var d1 := Exec(d, InstallPlan(c, target, d, q).ops);
    if d.State().current.Some? {
      PredecessorFile(c, d, d1, q, art, d.State().current.value);
    }
  }

  lemma PredecessorFile(c: Crypto, d: Disk, d1: Disk, q: Request, art: Artifact, cur: InstalledRecord)
    requires var v := q.signed.manifest.version;
      d1.versions == (d.versions - {StagingName(v)})[v := map[art.name := q.copied]]
    requires ParseVersion(cur.version).Some?
    ensures d1.File(cur.version, cur.artifact.name)
         == if cur.version != q.signed.manifest.version then d.File(cur.version, cur.artifact.name)
            else if cur.artifact.name == art.name then Some(q.copied) else None
  {
    StagingIsNotAVersion(q.signed.manifest.version);
  }

  /** The state a failed health check leaves, by whether the rollback worked. */
  lemma HealthEffect(c: Crypto, target: Target, d: Disk, q: Request)
    requires InstallPlan(c, target, d, q).result.Ok?
    ensures var st1 := RecordInstall(d.State(), target.Key(), InstallPlan(c, target, d, q).result.value);
      var rollback := RollbackPlan(c, target, Exec(d, InstallPlan(c, target, d, q).ops));
      var plan := HealthPlan(c, target, d, q, false);
      if rollback.result.Ok? then
        && st1.previous.Some?
        && plan.result == Err(HealthCheckFailed(q.signed.manifest.version))
        && Exec(d, plan.ops).State()
             == Quarantine(RecordRollback(st1, target.Key(), st1.previous.value), q.signed.manifest.version)
      else
        plan.result == rollback.result && Exec(d, plan.ops).State() == st1
  {
    CheckedVersion(c, target, d.State(), q);
    hide Check;
    var v := q.signed.manifest.version;
    var art := Check(c, target, d.State(), q).value;
    var install := InstallPlan(c, target, d, q);
    var st1 := RecordInstall(d.State(), target.Key(), RecordOf(q, art));
    InstallEffect(d, v, art.name, q.copied, st1);
    var d1 := Exec(d, install.ops);
    var rollback := RollbackPlan(c, target, d1);
    if rollback.result.Ok? {
      var st2 := RecordRollback(st1, target.Key(), st1.previous.value);
      SaveEffect(d1, st2);
      SaveEffect(Exec(d1, rollback.ops), Quarantine(st2, v));
      ExecAppend(d1, rollback.ops, SaveOps(Quarantine(st2, v)));
    }
    ExecAppend(d, install.ops, RevertPlan(c, target, d1, v).ops);
  }

  /** A failed health check. Exactly when the predecessor survives, the pre-install record is
      current again, the sequence stays raised and the version is quarantined; otherwise the
      unhealthy version stays current and nothing is quarantined. */
  lemma FailedHealthCheck(c: Crypto, target: Target, d: Disk, q: Request)
    requires StateInv(d.State(), target.Key()) && AllIntact(c, d)
    requires InstallPlan(c, target, d, q).result.Ok?
    ensures var key := target.Key();
      var v := q.signed.manifest.version;
      var plan := HealthPlan(c, target, d, q, false);
      var before := d.State();
      var after := Exec(d, plan.ops).State();
      && (plan.result == Err(HealthCheckFailed(v))
          <==> PredecessorSurvives(c, d, q, InstallPlan(c, target, d, q).result.value.artifact))
      && LastSequence(after, key) == q.signed.manifest.sequence > LastSequence(before, key)
      && (if plan.result == Err(HealthCheckFailed(v)) then
            && after.current == before.current && after.previous == None
            && after.client.installedVersion == before.client.installedVersion
            && after.quarantined == before.quarantined + [v]
          else
            && plan.result.Err? && after.current.Some? && after.current.value.version == v
            && after.previous == before.current && after.quarantined == before.quarantined)
  {
    RollbackPossible(c, target, d, q);
    HealthEffect(c, target, d, q);
    AcceptedState(c, target, d.State(), q);
    if d.State().current.Some? {
      RestoredClient(d.State(), target.Key(), InstallPlan(c, target, d, q).result.value);
    }
    RollbackErrors(c, target, Exec(d, InstallPlan(c, target, d, q).ops));
  }

  lemma RestoredClient(st: InstallerState, key: string, rec: InstalledRecord)
    requires StateInv(st, key) && st.current.Some?
    ensures RecordRollback(RecordInstall(st, key, rec), key, st.current.value).client
         == st.client.(lastSequence := st.client.lastSequence[key := rec.sequence])
  {
    assert st.client.installedVersion[key := rec.version][key := st.current.value.version] == st.client.installedVersion;
  }

  lemma RollbackErrors(c: Crypto, target: Target, d: Disk)
    ensures var r := RollbackPlan(c, target, d).result;
      r.Err? ==> !r.error.HealthCheckFailed?
  {}

  // ---------- Crash safety over whole runs ----------

  lemma SaveIntact(c: Crypto, d: Disk, st: InstallerState, d': Disk)
    requires AllIntact(c, d) && CrashDisk(d, SaveOps(st), d')
    requires st.current == d.State().current || st.current == d.State().previous
    requires st.previous == d.State().previous || st.previous == None
    ensures AllIntact(c, d')
  {
    SaveCrash(d, st, d');
  }

  lemma RollbackCrashSafe(c: Crypto, target: Target, d: Disk, d': Disk)
    requires AllIntact(c, d) && CrashDisk(d, RollbackPlan(c, target, d).ops, d')
    ensures AllIntact(c, d')
  {
    if RollbackPlan(c, target, d).result.Ok? {
      SaveIntact(c, d, RecordRollback(d.State(), target.Key(), d.State().previous.value), d');
    }
  }

  lemma HealthCrashSafe(c: Crypto, target: Target, d: Disk, q: Request, healthy: bool, d': Disk)
    requires StateInv(d.State(), target.Key()) && AllIntact(c, d)
    requires q.signed.manifest.version !in RecordedVersions(d.State())
    requires CrashDisk(d, HealthPlan(c, target, d, q, healthy).ops, d')
    ensures AllIntact(c, d')
  {
    var install := InstallPlan(c, target, d, q);
    var d1 := Exec(d, install.ops);
    var d2 := Exec(d1, RollbackPlan(c, target, d1).ops);
    CompletedIsACrash(d, install.ops);
    CrashSafe(c, target, d, q, d1);
    CompletedIsACrash(d1, RollbackPlan(c, target, d1).ops);
    RollbackCrashSafe(c, target, d1, d2);
    HealthCrash(c, target, d, q, healthy, d');
    if CrashDisk(d, install.ops, d') {
      CrashSafe(c, target, d, q, d');
    } else if CrashDisk(d1, RollbackPlan(c, target, d1).ops, d') {
      RollbackCrashSafe(c, target, d1, d');
    } else {
      SaveIntact(c, d2, Quarantine(d2.State(), q.signed.manifest.version), d');
    }
  }

  /** The event is not decay and offers no manifest whose version string the state records. */
  predicate CarefulEvent(st: InstallerState, ev: Event) {
    && !ev.Decay?
    && (CarriesManifest(ev) ==> ev.q.signed.manifest.version !in RecordedVersions(st))
  }

  lemma EventCrashSafe(c: Crypto, target: Target, d: Disk, ev: Event, d': Disk)
    requires StateInv(d.State(), target.Key()) && AllIntact(c, d)
    requires CarefulEvent(d.State(), ev) && Step(c, target, d, ev, d')
    ensures AllIntact(c, d')
  {
    match ev
    case Rollback => RollbackCrashSafe(c, target, d, d');
    case Install(q) => CrashSafe(c, target, d, q, d');
    case HealthInstall(q, healthy) => HealthCrashSafe(c, target, d, q, healthy, d');
  }

  /** Over any careful run, with a power cut allowed inside every operation, what `state.json`
      names is always on disk with its recorded size and hash. */
  lemma {:induction false} RunCrashSafe(c: Crypto, target: Target, disks: seq<Disk>, events: seq<Event>, i: nat)
    requires Run(c, target, disks, events) && i < |disks|
    requires forall k :: 0 <= k < |events| ==> CarefulEvent(disks[k].State(), events[k])
    ensures AllIntact(c, disks[i])
  {
    if i == 0 {
    } else {
      RunCrashSafe(c, target, disks, events, i - 1);
      RunInv(c, target, disks, events, i - 1, i - 1);
      assert StepAt(c, target, disks, events, i - 1);
      EventCrashSafe(c, target, disks[i - 1], events[i - 1], disks[i]);
    }
  }
}
