/** When the installer of spike-release/src/lib.rs accepts a manifest and what it then leaves on the disk,
    stated on the request and the disk alone. */
module InstallerConditions {
  import opened Prelude
  import opened Release
  import opened Installer
  import opened InstallerSafety

  /** Signed by a trusted key, for this target and in the known schema. */
  predicate Authentic(c: Crypto, target: Target, q: Request) {
    var m, key := q.signed.manifest, ToAsciiLowercase(q.signed.keyId);
    key in c.trusted && c.signatureValid(key, m, q.signed.signature) && m.schema == 1 && m.target == target
  }

  /** A version, and artifacts with distinct plain names and 64 lower-case hexadecimal digits as hash. */
  predicate WellFormed(m: ReleaseManifest) {
    && ParseVersion(m.version).Some? && m.artifacts != []
    && (forall i :: 0 <= i < |m.artifacts| ==>
          var name, hash := m.artifacts[i].name, m.artifacts[i].sha256;
          && name != "" && name != "." && name != ".." && '/' !in name && '\\' !in name
          && |hash| == 64 && forall k :: 0 <= k < 64 ==> '0' <= hash[k] <= '9' || 'a' <= hash[k] <= 'f')
    && (forall i, j :: 0 <= i < j < |m.artifacts| ==> m.artifacts[i].name != m.artifacts[j].name)
  }

  /** Issued at most five minutes from now, not expired. */
  predicate Timely(m: ReleaseManifest, now: nat) {
    m.issuedAt <= now + 300 && now < m.expiresAt
  }

  predicate AtLeast(v: Version, w: Version) {
    v.major > w.major || (v.major == w.major && (v.minor > w.minor || (v.minor == w.minor && v.patch >= w.patch)))
  }

  function Slot(target: Target): string {
    target.product + "/" + target.channel + "/" + target.platform
  }

  /** What the client remembers before its first install: nothing. */
  function Remembered(d: Disk): ClientState {
    if d.stateFile.Some? then d.stateFile.value.client else ClientState(map[], map[])
  }

  /** The sequence is new for this target. */
  predicate Fresh(target: Target, d: Disk, m: ReleaseManifest) {
    Slot(target) in Remembered(d).lastSequence ==> m.sequence > Remembered(d).lastSequence[Slot(target)]
  }

  /** The version is not below the one installed for this target. */
  predicate NoDowngrade(target: Target, d: Disk, m: ReleaseManifest)
    requires ParseVersion(m.version).Some?
  {
    Slot(target) in Remembered(d).installedVersion ==>
      var installed := ParseVersion(Remembered(d).installedVersion[Slot(target)]);
      installed.Some? && AtLeast(ParseVersion(m.version).value, installed.value)
  }

  /** The bytes are the signed ones, by size and hash. */
  predicate IsArtifact(c: Crypto, bytes: Content, art: Artifact) {
    |bytes| == art.size && c.hash(bytes) == art.sha256
  }

  predicate Offers(c: Crypto, target: Target, d: Disk, q: Request) {
    && Authentic(c, target, q) && WellFormed(q.signed.manifest) && Timely(q.signed.manifest, q.now)
    && Fresh(target, d, q.signed.manifest) && NoDowngrade(target, d, q.signed.manifest)
  }

  lemma NotLess(v: Version, w: Version)
    ensures VersionLess(v, w) <==> !AtLeast(v, w)
  {}

  lemma VerifiesExactly(c: Crypto, target: Target, d: Disk, q: Request)
    ensures Verify(c, q.signed, target, d.State().client, q.now).Ok? <==> Offers(c, target, d, q)
  {
    var m := q.signed.manifest;
    if ParseVersion(m.version).Some? && Slot(target) in Remembered(d).installedVersion {
      var installed := ParseVersion(Remembered(d).installedVersion[Slot(target)]);
      if installed.Some? { NotLess(ParseVersion(m.version).value, installed.value); }
    }
    hide ParseVersion;
    hide ToAsciiLowercase;
  }

  /** The artifact of that name; names are distinct, so there is no other. */
  lemma {:induction false} FoundExactly(arts: seq<Artifact>, name: string, art: Artifact)
    requires forall i, j :: 0 <= i < j < |arts| ==> arts[i].name != arts[j].name
    ensures FindArtifact(arts, name) == Ok(art) <==> art in arts && art.name == name
  {
    if arts == [] {
    } else {
      assert arts == [arts[0]] + arts[1..];
      if arts[0].name != name { FoundExactly(arts[1..], name, art); }
    }
  }

  /** An install succeeds exactly when the manifest is authentic, well formed and timely, neither a replay
      nor a downgrade, lists the artifact asked for, and what was downloaded, and what was copied, have
      the signed size and hash; and then it reports what the manifest says. */
  lemma InstallsExactly(c: Crypto, target: Target, d: Disk, q: Request, rec: InstalledRecord)
    ensures var m := q.signed.manifest;
      InstallPlan(c, target, d, q).result == Ok(rec) <==>
        && Authentic(c, target, q) && WellFormed(m) && Timely(m, q.now)
        && Fresh(target, d, m) && NoDowngrade(target, d, m)
        && rec.version == m.version && rec.sequence == m.sequence
        && rec.artifact in m.artifacts && rec.artifact.name == q.name
        && q.downloaded.Some? && IsArtifact(c, q.downloaded.value, rec.artifact) && IsArtifact(c, q.copied, rec.artifact)
  {
    var m := q.signed.manifest;
    VerifiesExactly(c, target, d, q);
    if Offers(c, target, d, q) {
      FoundExactly(m.artifacts, q.name, rec.artifact);
      var found := FindArtifact(m.artifacts, q.name);
      if found.Ok? { FoundExactly(m.artifacts, q.name, found.value); }
    }
    hide Verify;
    hide WellFormed;
    hide Authentic;
  }

  /** Why an install fails, for the reasons a caller tells apart: what is signed by no trusted key, or not
      validly, is refused for that before anything in it is looked at, and nothing is copied unless the
      download is the signed artifact. */
  lemma RefusalsExactly(c: Crypto, target: Target, d: Disk, q: Request)
    ensures var m, key, r := q.signed.manifest, ToAsciiLowercase(q.signed.keyId), InstallPlan(c, target, d, q).result;
      && (r == Err(UnauthorizedKey) <==> key !in c.trusted)
      && (r == Err(BadSignature) <==> key in c.trusted && !c.signatureValid(key, m, q.signed.signature))
      && (r == Err(UnsupportedSchema) <==>
            key in c.trusted && c.signatureValid(key, m, q.signed.signature) && m.schema != 1)
      && (r == Err(TargetMismatch) <==>
            key in c.trusted && c.signatureValid(key, m, q.signed.signature) && m.schema == 1 && m.target != target)
      && (Authentic(c, target, q) && !WellFormed(m) ==> r == Err(Malformed))
      && (r == Err(NotYetValid) <==> Authentic(c, target, q) && WellFormed(m) && m.issuedAt > q.now + 300)
      && (r == Err(Expired) <==>
            Authentic(c, target, q) && WellFormed(m) && m.issuedAt <= q.now + 300 && q.now >= m.expiresAt)
      && (r.Err? && r.error.Replay? <==>
            Authentic(c, target, q) && WellFormed(m) && Timely(m, q.now) && !Fresh(target, d, m))
      && (r == Err(Downgrade) <==>
            && Authentic(c, target, q) && WellFormed(m) && Timely(m, q.now) && Fresh(target, d, m)
            && !NoDowngrade(target, d, m) && ParseVersion(Remembered(d).installedVersion[Slot(target)]).Some?)
      && (r == Err(UnknownArtifact) <==>
            Offers(c, target, d, q) && forall i :: 0 <= i < |m.artifacts| ==> m.artifacts[i].name != q.name)
      && (r.Err? && !(r.error.SizeMismatch? || r.error.HashMismatch?) ==> InstallPlan(c, target, d, q).ops == [])
  {
    var m := q.signed.manifest;
    VerifiesExactly(c, target, d, q);
    hide ParseVersion;
    hide ToAsciiLowercase;
    hide StageOps;
    hide PublishOps;
    hide SaveOps;
  }

  /** A manifest that offers the artifact: the download is checked first, then the copy, each for its size
      and then for its hash. */
  lemma MismatchesExactly(c: Crypto, target: Target, d: Disk, q: Request, art: Artifact)
    requires Offers(c, target, d, q) && art in q.signed.manifest.artifacts && art.name == q.name
    ensures var r := InstallPlan(c, target, d, q).result;
      if q.downloaded.None? then r == Err(Io)
      else
        var checked := if IsArtifact(c, q.downloaded.value, art) then q.copied else q.downloaded.value;
        && (r == Err(SizeMismatch) <==> |checked| != art.size)
        && (r == Err(HashMismatch) <==> |checked| == art.size && c.hash(checked) != art.sha256)
        && (r.Ok? <==> IsArtifact(c, checked, art))
  {
    VerifiesExactly(c, target, d, q);
    FoundExactly(q.signed.manifest.artifacts, q.name, art);
    hide Verify;
    hide Offers;
    hide StageOps;
    hide PublishOps;
    hide SaveOps;
  }

  /** What a successful install leaves: the version's directory holds the copied file alone, the staging
      directory is gone, every other directory is as it was, and the state names the new record, the old
      one as its predecessor, and the sequence and version of the manifest for this target. */
  lemma InstallLeaves(c: Crypto, target: Target, d: Disk, q: Request)
    requires InstallPlan(c, target, d, q).result.Ok?
    ensures var m, rec := q.signed.manifest, InstallPlan(c, target, d, q).result.value;
      var st := if d.stateFile.Some? then d.stateFile.value else InstallerState(ClientState(map[], map[]), None, None, []);
      Exec(d, InstallPlan(c, target, d, q).ops) == Disk(
        (d.versions - {".staging-" + m.version})[m.version := map[q.name := q.copied]],
        Some(InstallerState(
          ClientState(st.client.lastSequence[Slot(target) := m.sequence],
                      st.client.installedVersion[Slot(target) := m.version]),
          Some(rec), st.current, st.quarantined)),
        Absent)
  {
    var v, art := q.signed.manifest.version, Check(c, target, d.State(), q).value;
    CheckedVersion(c, target, d.State(), q);
    InstallEffect(d, v, art.name, q.copied, RecordInstall(d.State(), target.Key(), RecordOf(q, art)));
    hide StageOps;
    hide PublishOps;
    hide SaveOps;
    hide Exec;
    hide Verify;
  }

  /** A rollback succeeds exactly when there is a predecessor and its file is there with the recorded size
      and hash; it makes the predecessor current, leaves none, and touches no directory. */
  lemma RollbackExactly(c: Crypto, target: Target, d: Disk, rec: InstalledRecord)
    ensures var r := RollbackPlan(c, target, d);
      && (r.result == Ok(rec) <==>
            && d.stateFile.Some? && d.stateFile.value.previous == Some(rec)
            && rec.version in d.versions && rec.artifact.name in d.versions[rec.version]
            && IsArtifact(c, d.versions[rec.version][rec.artifact.name], rec.artifact))
      && (r.result == Err(NoPreviousVersion) <==> d.stateFile.None? || d.stateFile.value.previous.None?)
      && (r.result.Err? ==> r.ops == [])
      && (r.result == Ok(rec) ==>
            var st := d.stateFile.value;
            Exec(d, r.ops) == Disk(d.versions, Some(InstallerState(
              ClientState(st.client.lastSequence, st.client.installedVersion[Slot(target) := rec.version]),
              Some(rec), None, st.quarantined)), Absent))
  {
    if RollbackPlan(c, target, d).result.Ok? {
      SaveEffect(d, RecordRollback(d.State(), target.Key(), d.State().previous.value));
    }
    hide SaveOps;
    hide Exec;
  }

  /** With a health check the call succeeds exactly when the install does and the check passes, and does
      nothing else then. */
  lemma HealthExactly(c: Crypto, target: Target, d: Disk, q: Request, healthy: bool)
    ensures var install, r := InstallPlan(c, target, d, q), HealthPlan(c, target, d, q, healthy);
      && (r.result.Ok? <==> healthy && install.result.Ok?)
      && (healthy || install.result.Err? ==> r == install)
  {
    hide InstallPlan;
  }
}
