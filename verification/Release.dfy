/** Signed release manifests and their verification (spike-release/src/lib.rs).

    Ed25519 and SHA-256 are foreign code: they are the two functions of `Crypto`,
    about which nothing is assumed. JSON is a lossless encoding of the values here. */
module Release {
  import opened Prelude

  const MANIFEST_SCHEMA: nat := 1
  const CLOCK_SKEW_SECS: nat := 300
  const U64_MAX: nat := 0xFFFF_FFFF_FFFF_FFFF

  type Content = seq<Byte>

  datatype ReleaseError =
    | UnauthorizedKey | BadSignature | Malformed | UnsupportedSchema | TargetMismatch
    | Expired | NotYetValid | Replay(got: nat, last: nat) | Downgrade
    | UnknownArtifact | SizeMismatch | HashMismatch
    | NoPreviousVersion | HealthCheckFailed(version: string) | Io

  datatype Artifact = Artifact(name: string, kind: string, sha256: string, size: nat, url: string)

  datatype Target = Target(product: string, channel: string, platform: string) {
    function Key(): string {
      product + "/" + channel + "/" + platform
    }
  }

  datatype ReleaseManifest = ReleaseManifest(
    schema: nat, target: Target, version: string, sequence: nat,
    issuedAt: nat, expiresAt: nat, artifacts: seq<Artifact>)

  datatype SignedManifest = SignedManifest(manifest: ReleaseManifest, keyId: string, signature: string)

  datatype ClientState = ClientState(
    lastSequence: map<string, nat>, installedVersion: map<string, string>)

  /** The hash and the signature check, and the lower-case hexadecimal keys the client trusts. */
  datatype Crypto = Crypto(
    hash: Content -> string,
    signatureValid: (string, ReleaseManifest, string) -> bool,
    trusted: set<string>)

  // ---------- Versions ----------

  datatype Version = Version(major: nat, minor: nat, patch: nat)

  /** The order of Rust's tuples of three integers. */
  predicate VersionLess(a: Version, b: Version) {
    a.major < b.major
    || (a.major == b.major && a.minor < b.minor)
    || (a.major == b.major && a.minor == b.minor && a.patch < b.patch)
  }

  function Split(s: string, sep: char): (r: seq<string>)
    ensures |r| >= 1
  {
    if s == "" then [""]
    else
      var rest := Split(s[1..], sep);
      if s[0] == sep then [""] + rest else [[s[0]] + rest[0]] + rest[1..]
  }

  function Digits(s: string): Option<nat> {
    if s == "" then Some(0)
    else
      match Digits(s[..|s| - 1])
      case None => None
      case Some(n) =>
        var c := s[|s| - 1];
        if '0' <= c <= '9' then Some(10 * n + (c as int - '0' as int)) else None
  }

  /** Rust's `str::parse::<u64>`: an optional leading plus sign is accepted. */
  function ParseU64(s: string): Option<nat> {
    var digits := if s != "" && s[0] == '+' then s[1..] else s;
    if digits == "" then None
    else
      match Digits(digits)
      case None => None
      case Some(n) => if n <= U64_MAX then Some(n) else None
  }

  function ParseVersion(v: string): Option<Version> {
    var parts := Split(v, '.');
    if |parts| != 3 then None
    else
      match (ParseU64(parts[0]), ParseU64(parts[1]), ParseU64(parts[2]))
      case (Some(a), Some(b), Some(c)) => Some(Version(a, b, c))
      case _ => None
  }

  // ---------- Manifest verification ----------

  predicate IsHexSha256(s: string) {
    |s| == 64 && forall i :: 0 <= i < |s| ==> '0' <= s[i] <= '9' || 'a' <= s[i] <= 'f'
  }

  predicate NameOk(name: string) {
    name != "" && '/' !in name && '\\' !in name && name != "." && name != ".."
  }

  /** What the artifact loop of `verify_manifest` establishes. */
  predicate ArtifactsOk(arts: seq<Artifact>) {
    && (forall i :: 0 <= i < |arts| ==> NameOk(arts[i].name) && IsHexSha256(arts[i].sha256))
    && (forall i, j :: 0 <= i < j < |arts| ==> arts[i].name != arts[j].name)
  }

  function Verify(c: Crypto, signed: SignedManifest, expected: Target, st: ClientState, now: nat)
    : Result<(), ReleaseError>
  {
    var m := signed.manifest;
    var key := m.target.Key();
    if ToAsciiLowercase(signed.keyId) !in c.trusted then Err(UnauthorizedKey)
    else if !c.signatureValid(ToAsciiLowercase(signed.keyId), m, signed.signature) then Err(BadSignature)
    else if m.schema != MANIFEST_SCHEMA then Err(UnsupportedSchema)
    else if m.target != expected then Err(TargetMismatch)
    else if ParseVersion(m.version).None? || m.artifacts == [] || !ArtifactsOk(m.artifacts) then Err(Malformed)
    else if m.issuedAt > now + CLOCK_SKEW_SECS then Err(NotYetValid)
    else if now >= m.expiresAt then Err(Expired)
    else if key in st.lastSequence && m.sequence <= st.lastSequence[key] then
      Err(Replay(m.sequence, st.lastSequence[key]))
    else if key in st.installedVersion then
      match ParseVersion(st.installedVersion[key])
      case None => Err(Malformed)
      case Some(installed) =>
        if VersionLess(ParseVersion(m.version).value, installed) then Err(Downgrade) else Ok(())
    else Ok(())
  }

  /** `verify_manifest`, with its loop over the artifacts and its local set of names. */
  method VerifyManifest(c: Crypto, signed: SignedManifest, expected: Target, st: ClientState, now: nat)
    returns (r: Result<(), ReleaseError>)
    ensures r == Verify(c, signed, expected, st, now)
  {
    var m := signed.manifest;
    var keyId := ToAsciiLowercase(signed.keyId);
    if keyId !in c.trusted { return Err(UnauthorizedKey); }
    if !c.signatureValid(keyId, m, signed.signature) { return Err(BadSignature); }
    if m.schema != MANIFEST_SCHEMA { return Err(UnsupportedSchema); }
    if m.target != expected { return Err(TargetMismatch); }
    var version := ParseVersion(m.version);
    if version.None? { return Err(Malformed); }
    if m.artifacts == [] { return Err(Malformed); }
    var names: set<string> := {};
    for i := 0 to |m.artifacts|
      invariant names == set k | 0 <= k < i :: m.artifacts[k].name
      invariant ArtifactsOk(m.artifacts[..i])
    {
      var a := m.artifacts[i];
      assert m.artifacts[..i + 1] == m.artifacts[..i] + [a];
      if !NameOk(a.name) { return Err(Malformed); }
      if !IsHexSha256(a.sha256) { return Err(Malformed); }
      if a.name in names { return Err(Malformed); }
      names := names + {a.name};
    }
    assert m.artifacts[..|m.artifacts|] == m.artifacts;
    if m.issuedAt > now + CLOCK_SKEW_SECS { return Err(NotYetValid); }
    if now >= m.expiresAt { return Err(Expired); }
    var key := m.target.Key();
    if key in st.lastSequence {
      var last := st.lastSequence[key];
      if m.sequence <= last { return Err(Replay(m.sequence, last)); }
    }
    if key in st.installedVersion {
      var installed := ParseVersion(st.installedVersion[key]);
      if installed.None? { return Err(Malformed); }
      if VersionLess(version.value, installed.value) { return Err(Downgrade); }
    }
    return Ok(());
  }

  /** The first artifact of that name; the manifest check makes it the only one. */
  function FindArtifact(arts: seq<Artifact>, name: string): (r: Result<Artifact, ReleaseError>)
    ensures r.Ok? ==> r.value in arts && r.value.name == name
    ensures r.Err? <==> forall i :: 0 <= i < |arts| ==> arts[i].name != name
    ensures r.Err? ==> r.error == UnknownArtifact
  {
    if arts == [] then Err(UnknownArtifact)
    else if arts[0].name == name then Ok(arts[0])
    else FindArtifact(arts[1..], name)
  }

  /** `verify_artifact`: `None` stands for a file that cannot be opened. */
  function VerifyArtifact(c: Crypto, file: Option<Content>, expected: Artifact): Result<(), ReleaseError> {
    match file
    case None => Err(Io)
    case Some(bytes) =>
      if |bytes| != expected.size then Err(SizeMismatch)
      else if c.hash(bytes) != expected.sha256 then Err(HashMismatch)
      else Ok(())
  }

  // ---------- Directory names ----------

  function StagingName(version: string): string {
    ".staging-" + version
  }

  /** A staging directory can never be taken for the directory of a version. */
  lemma StagingIsNotAVersion(version: string)
    ensures ParseVersion(StagingName(version)).None?
  {
    var s := StagingName(version);
    assert s[0] == '.';
    assert Split(s, '.')[0] == "";
  }
}
