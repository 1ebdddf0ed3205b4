/** One concrete input for each promise the installer does not keep in general. */
module InstallerExamples {
  import opened Prelude
  import opened Release
  import opened Installer
  import opened InstallerSafety

  const VERSION := "1.0.0"
  const NEXT := "2.0.0"
  const NAME := "app"
  const BYTES: Content := [0]
  const TARGET := Target("p", "c", "l")

  function Digest(): (s: string)
    ensures IsHexSha256(s)
  {
    seq(64, i => 'a')
  }

  function App(): Artifact {
    Artifact(NAME, "bin", Digest(), 1, "")
  }

  function SameHash(bytes: Content): string {
    Digest()
  }

  predicate AnySignature(key: string, m: ReleaseManifest, signature: string) {
    true
  }

  const CRYPTO := Crypto(SameHash, AnySignature, {"k"})

  function Manifest(version: string, sequence: nat): ReleaseManifest {
    ReleaseManifest(MANIFEST_SCHEMA, TARGET, version, sequence, 0, 10, [App()])
  }

  function Offered(version: string, sequence: nat): Request {
    Request(SignedManifest(Manifest(version, sequence), "k", ""), NAME, Some(BYTES), BYTES, 0)
  }

  function Record(): InstalledRecord {
    InstalledRecord(VERSION, 1, App())
  }

  /** Nothing installed. */
  const FRESH := Disk(map[], None, Absent)

  /** The first version installed from sequence 1. */
  function InstalledDisk(): Disk {
    Disk(map[VERSION := map[NAME := BYTES]],
         Some(InstallerState(ClientState(map[TARGET.Key() := 1], map[TARGET.Key() := VERSION]), Some(Record()), None, [])), Absent)
  }

  lemma VersionsParse()
    ensures ParseVersion(VERSION) == Some(Version(1, 0, 0)) && ParseVersion(NEXT) == Some(Version(2, 0, 0))
  {
    SplitAt('0', "");
    SplitAt('.', "0");
    SplitAt('0', ".0");
    SplitAt('.', "0.0");
    SplitAt('1', ".0.0");
    SplitAt('2', ".0.0");
    assert "1" + ".0.0" == VERSION && "2" + ".0.0" == NEXT;
    assert "." + "0.0" == ".0.0" && "0" + ".0" == "0.0" && "." + "0" == ".0" && "0" + "" == "0";
    assert ['1'] + "" == "1" && ['2'] + "" == "2";
    assert Split(VERSION, '.') == ["1", "0", "0"] && Split(NEXT, '.') == ["2", "0", "0"];
    OneDigit("0", 0);
    OneDigit("1", 1);
    OneDigit("2", 2);
  }

  lemma OneDigit(s: string, n: nat)
    requires n < 10 && s == ['0' + n as char]
    ensures ParseU64(s) == Some(n)
  {
    assert s[..0] == "" && s[0] != '+' && s[0] as int - '0' as int == n;
    assert Digits("") == Some(0) && Digits(s) == Some(n);
  }

  lemma SplitAt(c: char, rest: string)
    ensures Split([c] + rest, '.') ==
      if c == '.' then [""] + Split(rest, '.') else [[c] + Split(rest, '.')[0]] + Split(rest, '.')[1..]
  {
    assert ([c] + rest)[0] == c && ([c] + rest)[1..] == rest;
  }

  lemma ManifestVerifies(st: ClientState, version: string, sequence: nat)
    requires ParseVersion(version).Some?
    requires TARGET.Key() in st.lastSequence ==> st.lastSequence[TARGET.Key()] < sequence
    requires TARGET.Key() in st.installedVersion ==>
      var installed := ParseVersion(st.installedVersion[TARGET.Key()]);
      installed.Some? && !VersionLess(ParseVersion(version).value, installed.value)
    ensures Verify(CRYPTO, Offered(version, sequence).signed, TARGET, st, 0) == Ok(())
  {
    hide ParseVersion;
    assert ToAsciiLowercase("k") == "k";
    assert NameOk(NAME) && ArtifactsOk([App()]);
  }

  lemma Checks(d: Disk, version: string, sequence: nat, copied: Content)
    requires Verify(CRYPTO, Offered(version, sequence).signed, TARGET, d.State().client, 0) == Ok(())
    ensures Check(CRYPTO, TARGET, d.State(), Offered(version, sequence).(copied := copied)) == Ok(App())
  {
    hide Verify;
    assert FindArtifact([App()], NAME) == Ok(App());
  }

  lemma Installs(d: Disk, version: string, sequence: nat)
    requires Verify(CRYPTO, Offered(version, sequence).signed, TARGET, d.State().client, 0) == Ok(())
    ensures InstallPlan(CRYPTO, TARGET, d, Offered(version, sequence)).result == Ok(InstalledRecord(version, sequence, App()))
  {
    Checks(d, version, sequence, BYTES);
    assert Offered(version, sequence).(copied := BYTES) == Offered(version, sequence);
    hide Check;
  }

  lemma InstalledIsValid()
    ensures var d := InstalledDisk(); StateInv(d.State(), TARGET.Key()) && AllIntact(CRYPTO, d)
  {
    VersionsParse();
    hide ParseVersion;
  }

  /** Installing a recorded version string anew: a power cut loses the installed artifact. */
  lemma ReinstallLosesArtifact() returns (d': Disk)
    ensures var d, q := InstalledDisk(), Offered(VERSION, 2);
      && AllIntact(CRYPTO, d) && InstallPlan(CRYPTO, TARGET, d, q).result.Ok?
      && CrashDisk(d, InstallPlan(CRYPTO, TARGET, d, q).ops, d') && !AllIntact(CRYPTO, d')
  {
    var d, q := InstalledDisk(), Offered(VERSION, 2);
    VersionsParse();
    InstalledIsValid();
    ManifestVerifies(d.State().client, VERSION, 2);
    Installs(d, VERSION, 2);
    assert q.signed.manifest.version in RecordedVersions(d.State());
    hide *;
    d' := ReinstallUnsafe(CRYPTO, TARGET, d, q);
  }

  /** The download changes between the two checks: the install fails and leaves its staging directory. */
  lemma FailedInstallLeavesStaging()
    ensures var q := Offered(VERSION, 1).(copied := []);
      var plan := InstallPlan(CRYPTO, TARGET, FRESH, q);
      plan.result == Err(SizeMismatch) && Exec(FRESH, plan.ops) != FRESH
  {
    var q := Offered(VERSION, 1).(copied := []);
    VersionsParse();
    ManifestVerifies(FRESH.State().client, VERSION, 1);
    Checks(FRESH, VERSION, 1, []);
    hide Check;
    hide ParseVersion;
    RefusedLeavesNothingExactly(CRYPTO, TARGET, FRESH, q);
  }

  /** The first version ever fails its health check: it stays current and is not quarantined. */
  lemma FirstVersionStays()
    ensures var plan := HealthPlan(CRYPTO, TARGET, FRESH, Offered(VERSION, 1), false);
      var after := Exec(FRESH, plan.ops).State();
      plan.result.Err? && after.current == Some(Record()) && after.quarantined == []
  {
    VersionsParse();
    ManifestVerifies(FRESH.State().client, VERSION, 1);
    Installs(FRESH, VERSION, 1);
    hide ParseVersion;
    hide Verify;
    FailedHealthCheck(CRYPTO, TARGET, FRESH, Offered(VERSION, 1));
    HealthEffect(CRYPTO, TARGET, FRESH, Offered(VERSION, 1));
  }

  /** A version that failed its health check is quarantined, and installed again all the same when it is
      offered with a higher sequence. */
  lemma QuarantinedComesBack()
    ensures var d := InstalledDisk();
      var d' := Exec(d, HealthPlan(CRYPTO, TARGET, d, Offered(NEXT, 2), false).ops);
      && NEXT in d'.State().quarantined
      && InstallPlan(CRYPTO, TARGET, d', Offered(NEXT, 3)).result == Ok(InstalledRecord(NEXT, 3, App()))
  {
    var d := InstalledDisk();
    VersionsParse();
    InstalledIsValid();
    ManifestVerifies(d.State().client, NEXT, 2);
    Installs(d, NEXT, 2);
    assert PredecessorSurvives(CRYPTO, d, Offered(NEXT, 2), App());
    FailedHealthCheck(CRYPTO, TARGET, d, Offered(NEXT, 2));
    var d' := Exec(d, HealthPlan(CRYPTO, TARGET, d, Offered(NEXT, 2), false).ops);
    hide HealthPlan;
    hide ParseVersion;
    hide Exec;
    ManifestVerifies(d'.State().client, NEXT, 3);
    Installs(d', NEXT, 3);
  }
}
