/** The vocabulary of the release transaction engine: units, host paths, backup names,
    the journal record and the files a crash can leave behind. */
module ReleaseTypes {

  datatype Option<+T> = None | Some(value: T)

  // A release tree is named by the digest of its payload manifest.
  type Digest = nat
  type TxId = nat
  type Bytes = seq<char>

  /** SHA-256 taken as injective: the digest determines the hashed bytes. */
  datatype Sha256 = Sha256(preimage: Bytes)

  const MAX_HOST_ARTIFACT_BYTES := 16 * 1024 * 1024
  const MAX_LINK_TARGET := 4096

  /** CONSUMER_ENABLE_UNITS, in publication order. */
  datatype Unit = Daemon | Api | Nginx

  function Rank(u: Unit): nat {
    match u
    case Daemon => 0
    case Api => 1
    case Nginx => 2
  }

  /** A unit list the validator accepts: no duplicates, in publication order. */
  predicate Canonical(units: seq<Unit>) {
    forall i, j :: 0 <= i < j < |units| ==> Rank(units[i]) < Rank(units[j])
  }

  predicate Within(units: seq<Unit>, scope: seq<Unit>) {
    forall u :: u in units ==> u in scope
  }

  datatype HostPath =
    | NginxConf | ApiUnit | DaemonUnit | Logrotate | Supervisor | RpcProbe
    | BoundaryHelper | NftDropIn | EnvFile | Other(id: nat)

  const HOST_ARTIFACT_PATHS: seq<HostPath> :=
    [NginxConf, ApiUnit, DaemonUnit, Logrotate, Supervisor, RpcProbe, BoundaryHelper, NftDropIn, EnvFile]

  const COMMON_HOST_ARTIFACT_PATHS: seq<HostPath> := [NginxConf, ApiUnit, EnvFile]

  datatype Profile = Common | ManagedLocal

  /** _host_paths_for_profile: None is the source's refusal of a named profile
      on an engine without the production allowlist. */
  function HostPaths(allowlist: seq<HostPath>, profile: Option<Profile>): Option<seq<HostPath>> {
    match profile
    case None => Some(allowlist)
    case Some(p) =>
      if allowlist != HOST_ARTIFACT_PATHS then None
      else if p.Common? then Some(COMMON_HOST_ARTIFACT_PATHS)
      else Some(HOST_ARTIFACT_PATHS)
  }

  /** Owner, permission bits and link count of a host path. */
  datatype Metadata = Metadata(uid: nat, gid: nat, mode: bv12, links: nat)

  // The production owner of every host artifact.
  const EXPECTED_UID: nat := 0

  /** Not hard-linked, not writable by others, no set-id and no sticky bit (octal 7022). */
  predicate SafeFile(m: Metadata) {
    m.uid == EXPECTED_UID && m.links == 1 && m.mode & 0xE12 == 0
  }

  /** Octal 777, as every link has. */
  predicate SafeLink(m: Metadata) {
    m.uid == EXPECTED_UID && m.links == 1 && m.mode == 0x1FF
  }

  /** What a host path holds. */
  datatype Artifact =
    | Absent
    | File(content: Bytes, meta: Metadata)
    | Symlink(target: string, meta: Metadata)
    | Special(meta: Metadata)

  datatype BackupName = HostFile(index: nat) | BoundarySnapshot | BoundaryHelperCopy | Response(index: nat)

  /** One file below state_root/host-artifacts-<tx>. */
  datatype BackupId = BackupId(tx: TxId, name: BackupName)

  datatype RecordKind =
    | AbsentRecord
    | FileRecord(backup: BackupId, size: nat, sha: Sha256, fileMeta: Metadata)
    | SymlinkRecord(target: string, linkMeta: Metadata)

  datatype HostRecord = HostRecord(path: HostPath, kind: RecordKind)

  /** What the native boundary was when it was snapshotted. */
  datatype BoundaryState = AbsentBoundary | ManagedBoundary

  datatype NativeRecord =
    NativeRecord(snapshot: BackupId, sha: Sha256, helper: BackupId, helperSha: Sha256, state: BoundaryState)

  /** The identity of a consumer's process. */
  datatype Process = Process(workingDirectory: string, execStart: string, argv0: string, resolvedExec: string)

  datatype BaselineRecord =
    BaselineRecord(of: Unit, response: Option<(BackupId, Sha256)>, process: Option<Process>)

  datatype Kind = Archive | LegacyBaseline | NMinusOne | SelectorOnly

  datatype Phase =
    | Staging | Prepared
    | SwitchingCurrent | CurrentSwitched | SwitchingPrevious | Activated
    | Finalizing | Committed
    | StoppingConsumers | ConsumersStopped
    | RollingBackCurrent | RollingBackPrevious
    | RestoringNative | NativeRestored
    | RestoringHost | HostRestored
    | StartingBaseline | RolledBack

  predicate Terminal(p: Phase) { p.Committed? || p.RolledBack? }

  /** DAEMON_MUTATION_PHASES: the phases in which the daemon marker may be set. */
  predicate DaemonMutationPhase(p: Phase) {
    !p.Staging? && !p.Finalizing? && !p.Committed?
  }

  /** The durable journal, transaction.json. */
  datatype Journal = Journal(
    id: TxId,
    kind: Kind,
    phase: Phase,
    candidate: Digest,
    currentBefore: Option<Digest>,
    previousBefore: Option<Digest>,
    hostArtifacts: seq<HostRecord>,
    profile: Option<Profile>,
    native: Option<NativeRecord>,
    enable: seq<Unit>,
    start: seq<Unit>,
    plan: seq<Unit>,
    activeBefore: seq<Unit>,
    baseline: seq<BaselineRecord>,
    armed: bool,
    daemonStarted: bool,
    retired: bool,
    restored: bool
  )

  /** The host paths that exist; a missing path is an absent artifact. */
  type Host = m: map<HostPath, Artifact> | forall p :: p in m ==> !m[p].Absent? witness map[]

  datatype Slot = Current | Previous

  /** Everything of one deployment that is stored on disk; `releases` holds the complete
      release trees only. */
  datatype Files = Files(
    allowlist: seq<HostPath>,
    journal: Option<Journal>,
    current: Option<Digest>,
    previous: Option<Digest>,
    releases: set<Digest>,
    backups: map<BackupId, Bytes>,
    host: Host
  )

  function At(host: Host, path: HostPath): Artifact {
    if path in host then host[path] else Absent
  }

  /** os.replace or unlink of one host path. */
  function Replace(host: Host, path: HostPath, value: Artifact): (r: Host)
    ensures At(r, path) == value
    ensures forall p :: p != path ==> At(r, p) == At(host, p)
  {
    if value.Absent? then host - {path} else host[path := value]
  }

  /** Hosts that hold the same artifact at every path are the same. */
  lemma SameHost(a: Host, b: Host)
    requires forall p :: At(a, p) == At(b, p)
    ensures a == b
  {
    assert forall p :: p in a <==> !At(a, p).Absent?;
    assert forall p :: p in b <==> !At(b, p).Absent?;
  }

  predicate SlotsDistinct(current: Option<Digest>, previous: Option<Digest>) {
    current.Some? ==> current != previous
  }

  predicate Stored(releases: set<Digest>, slot: Option<Digest>) {
    slot.Some? ==> slot.value in releases
  }
}
