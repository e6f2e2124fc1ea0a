/** What _validate_transaction demands of a journal, and the derived notions the engine's
    branches test.  The validator's loops over records are methods of the engine. */
module JournalRules {
  import opened ReleaseTypes

  /** The backup `id` exists with exactly the recorded digest. */
  predicate Backed(backups: map<BackupId, Bytes>, id: BackupId, sha: Sha256) {
    id in backups && Sha256(backups[id]) == sha
  }

  /** Neither empty nor oversized. */
  predicate Substantial(sha: Sha256) {
    0 < |sha.preimage| <= MAX_HOST_ARTIFACT_BYTES
  }

  predicate IsScript(content: Bytes) {
    "#!/" <= content
  }

  // ---- paths ----

  /** The components of a path, empty ones included. */
  function Parts(path: string): seq<string>
    decreases |path|
  {
    var n := Until(path, '/');
    if n == |path| then [path] else [path[..n]] + Parts(path[n + 1..])
  }

  function Until(text: string, stop: char): (n: nat)
    ensures n <= |text|
  {
    if text == "" || text[0] == stop then 0 else 1 + Until(text[1..], stop)
  }

  /** Absolute, and its own normal form: no parent component. */
  predicate NormalPath(path: string) {
    "/" <= path && '\0' !in path && ".." !in Parts(path)
  }

  // ---- the native boundary snapshot ----

  const HEADER := "# TRex WebUI native boundary snapshot v1: "
  const TABLE_MARK := "table inet trex_webui_native_boundary {"
  const OWNER_MARK := "comment \"Managed by TRex WebUI deploy/install.sh.\""

  predicate IsBreak(c: char) {
    || c == '\n' || c == '\r' || c == '\U{000B}' || c == '\U{000C}' || c == '\U{001C}' || c == '\U{001D}' || c == '\U{001E}'
    || c == '\U{0085}' || c == '\U{2028}' || c == '\U{2029}'
  }

  function LineLength(text: string): (n: nat)
    ensures n <= |text|
  {
    if text == "" || IsBreak(text[0]) then 0 else 1 + LineLength(text[1..])
  }

  /** splitlines. */
  function Lines(text: string): seq<string>
    decreases |text|
  {
    if text == "" then []
    else
      var n := LineLength(text);
      var next := if n + 1 < |text| && text[n] == '\r' && text[n + 1] == '\n' then n + 2 else n + 1;
      [text[..n]] + (if next >= |text| then [] else Lines(text[next..]))
  }

  /** "\n".join. */
  function Unlines(lines: seq<string>): string {
    if lines == [] then ""
    else if |lines| == 1 then lines[0]
    else lines[0] + "\n" + Unlines(lines[1..])
  }

  predicate Contains(text: string, part: string) {
    part <= text || (text != "" && Contains(text[1..], part))
  }

  /** _native_boundary_snapshot_state: None where it raises. */
  function SnapshotState(content: Bytes): Option<BoundaryState> {
    var lines := Lines(content);
    if lines == [] then None
    else if lines[0] == HEADER + "absent" then (if |lines| == 1 then Some(AbsentBoundary) else None)
    else if lines[0] == HEADER + "managed" then
      var body := Unlines(lines[1..]);
      if Contains(body, TABLE_MARK) && Contains(body, OWNER_MARK) then Some(ManagedBoundary) else None
    else None
  }

  // ---- records ----

  predicate HostRecordValid(backups: map<BackupId, Bytes>, r: HostRecord, tx: TxId, index: nat, expected: HostPath) {
    && r.path == expected
    && (r.kind.SymlinkRecord? ==>
          SafeLink(r.kind.linkMeta) && NormalPath(r.kind.target) && |r.kind.target| <= MAX_HOST_ARTIFACT_BYTES)
    && (r.kind.FileRecord? ==>
          && SafeFile(r.kind.fileMeta)
          && r.kind.size <= MAX_HOST_ARTIFACT_BYTES
          && r.kind.backup == BackupId(tx, HostFile(index))
          && Backed(backups, r.kind.backup, r.kind.sha)
          && r.kind.size == |r.kind.sha.preimage|)
  }

  predicate HostRecordsValid(backups: map<BackupId, Bytes>, records: seq<HostRecord>, tx: TxId, expected: seq<HostPath>) {
    && |records| == |expected|
    && forall i :: 0 <= i < |records| ==> HostRecordValid(backups, records[i], tx, i, expected[i])
  }

  predicate NativeValid(backups: map<BackupId, Bytes>, native: Option<NativeRecord>, tx: TxId, required: bool) {
    && native.Some? == required
    && (native.Some? ==>
          && native.value.snapshot == BackupId(tx, BoundarySnapshot)
          && native.value.helper == BackupId(tx, BoundaryHelperCopy)
          && Backed(backups, native.value.snapshot, native.value.sha)
          && Backed(backups, native.value.helper, native.value.helperSha)
          && Substantial(native.value.sha) && Substantial(native.value.helperSha)
          && IsScript(native.value.helperSha.preimage)
          && SnapshotState(native.value.sha.preimage) == Some(native.value.state))
  }

  const MAX_PROCESS_FIELD := 16 * 1024

  predicate FieldValid(field: string) {
    0 < |field| <= MAX_PROCESS_FIELD && '\0' !in field
  }

  predicate ProcessValid(p: Process) {
    && FieldValid(p.workingDirectory) && FieldValid(p.execStart) && FieldValid(p.argv0) && FieldValid(p.resolvedExec)
    && NormalPath(p.workingDirectory) && NormalPath(p.argv0) && NormalPath(p.resolvedExec)
  }

  /** Only Nginx carries a response backup, and only the API a process identity. */
  predicate BaselineRecordValid(backups: map<BackupId, Bytes>, b: BaselineRecord, tx: TxId, index: nat, expected: Unit) {
    && b.of == expected
    && b.response.Some? == expected.Nginx?
    && b.process.Some? == expected.Api?
    && (b.process.Some? ==> ProcessValid(b.process.value))
    && (b.response.Some? ==>
          && b.response.value.0 == BackupId(tx, Response(index))
          && Backed(backups, b.response.value.0, b.response.value.1)
          && Substantial(b.response.value.1))
  }

  predicate BaselineValid(backups: map<BackupId, Bytes>, baseline: seq<BaselineRecord>, tx: TxId, active: seq<Unit>) {
    && |baseline| == |active|
    && forall i :: 0 <= i < |baseline| ==> BaselineRecordValid(backups, baseline[i], tx, i, active[i])
  }

  predicate PlanValid(kind: Kind, plan: seq<Unit>) {
    && Canonical(plan)
    && (kind.Archive? ==> Api in plan && Nginx in plan)
    && (kind.NMinusOne? ==> plan == [Api, Nginx])
    && (kind.LegacyBaseline? || kind.SelectorOnly? ==> plan == [])
  }

  /** The three digests of one transaction are consistent. */
  predicate DigestsValid(j: Journal) {
    && SlotsDistinct(j.currentBefore, j.previousBefore)
    && Some(j.candidate) != j.currentBefore
    && (j.kind.Archive? ==> Some(j.candidate) != j.previousBefore)
  }

  /** Archive on a managed-local host whose rollback plan owns the daemon. */
  predicate ManagedDaemonPlan(j: Journal) {
    j.kind.Archive? && j.profile == Some(ManagedLocal) && Daemon in j.plan
  }

  predicate MarkersValid(j: Journal) {
    && (!j.armed ==> j.activeBefore == [] && j.baseline == [])
    && (j.daemonStarted ==>
          && ManagedDaemonPlan(j)
          && !j.retired
          && DaemonMutationPhase(j.phase)
          && (j.armed || j.phase.RolledBack?))
    && (j.restored ==> j.phase.StartingBaseline? || j.phase.RolledBack?)
    && (j.retired ==> Terminal(j.phase))
  }

  predicate UnitListsValid(j: Journal) {
    && Canonical(j.enable)
    && Canonical(j.activeBefore) && Within(j.activeBefore, j.plan)
    && Canonical(j.start) && Within(j.start, j.enable)
    && (j.profile != Some(ManagedLocal) ==>
          Daemon !in j.enable && Daemon !in j.start && Daemon !in j.plan && Daemon !in j.activeBefore)
  }

  /** A retired terminal journal keeps no rollback-only authority. */
  predicate Compact(j: Journal) {
    && j.hostArtifacts == [] && j.native == None
    && j.enable == [] && j.start == [] && j.activeBefore == [] && j.baseline == []
    && !j.armed && !j.daemonStarted && !j.restored
  }

  /** _validate_transaction: the journal is well formed and every rollback byte it names is present. */
  predicate Accepts(allowlist: seq<HostPath>, backups: map<BackupId, Bytes>, j: Journal) {
    && DigestsValid(j)
    && MarkersValid(j)
    && var paths := if j.retired then Some([]) else HostPaths(allowlist, j.profile);
    && paths.Some?
    && HostRecordsValid(backups, j.hostArtifacts, j.id, paths.value)
    && NativeValid(backups, j.native, j.id, j.profile == Some(ManagedLocal) && !j.retired)
    && PlanValid(j.kind, j.plan)
    && (j.kind.SelectorOnly? ==> j.profile == None)
    && UnitListsValid(j)
    && BaselineValid(backups, j.baseline, j.id, j.activeBefore)
    && (j.retired ==> Compact(j))
  }

  /** The backups a journal still needs. */
  predicate References(j: Journal, id: BackupId) {
    || (exists i :: 0 <= i < |j.hostArtifacts| && j.hostArtifacts[i].kind.FileRecord? && j.hostArtifacts[i].kind.backup == id)
    || (j.native.Some? && (j.native.value.snapshot == id || j.native.value.helper == id))
    || (exists i :: 0 <= i < |j.baseline| && j.baseline[i].response.Some? && j.baseline[i].response.value.0 == id)
  }

  /** [unit for unit in CONSUMER_ENABLE_UNITS if unit in units]. */
  function InOrder(units: seq<Unit>): (r: seq<Unit>)
    ensures Canonical(r) && forall u :: u in r <==> u in units
  {
    var tail := if Nginx in units then [Nginx] else [];
    var rest := if Api in units then [Api] + tail else tail;
    assert forall u :: u in rest <==> u in units && !u.Daemon?;
    if Daemon in units then [Daemon] + rest else rest
  }

  /** A canonical unit list is determined by its members. */
  lemma {:induction false} CanonicalIsUnique(a: seq<Unit>, b: seq<Unit>)
    requires Canonical(a) && Canonical(b) && forall u :: u in a <==> u in b
    ensures a == b
  {
    if a != [] { assert a[0] in b; }
    if b != [] { assert b[0] in a; }
    if a != [] {
      var x, y := a[1..], b[1..];
      FirstAgrees(a, b);
      FirstIsLeast(a);
      FirstIsLeast(b);
      forall u ensures u in x <==> u in y {
        assert a == [a[0]] + x && b == [b[0]] + y;
        assert u in a <==> u == a[0] || u in x;
        assert u in b <==> u == b[0] || u in y;
      }
      CanonicalIsUnique(x, y);
    }
  }

  lemma FirstAgrees(a: seq<Unit>, b: seq<Unit>)
    requires Canonical(a) && Canonical(b) && a != [] && b != [] && a[0] in b && b[0] in a
    ensures a[0] == b[0]
  {
  }

  lemma FirstIsLeast(a: seq<Unit>)
    requires Canonical(a) && a != []
    ensures Canonical(a[1..]) && forall u :: u in a[1..] ==> Rank(a[0]) < Rank(u)
  {
  }

  // ---- decisions of _rollback_locked ----

  /** The consumers a rollback stops: the daemon is left alone unless its mutation was durably marked. */
  function EffectivePlan(j: Journal): seq<Unit> {
    if ManagedDaemonPlan(j) && !j.daemonStarted then Without(j.plan, Daemon) else j.plan
  }

  function Without(units: seq<Unit>, u: Unit): (r: seq<Unit>)
    ensures forall x :: x in r <==> x in units && x != u
  {
    if units == [] then []
    else if units[0] == u then Without(units[1..], u)
    else [units[0]] + Without(units[1..], u)
  }

  predicate HostRestorePlanned(j: Journal) {
    j.kind.Archive? && (ManagedDaemonPlan(j) ==> j.daemonStarted)
  }

  predicate NativeRestorePlanned(j: Journal) {
    HostRestorePlanned(j) && Daemon in j.plan
  }

  /** The daemon's baseline start is skipped when the transaction never took it over. */
  predicate Fenced(j: Journal, u: Unit) {
    u in j.activeBefore &&
    !(u.Daemon? && j.kind.Archive? && j.profile == Some(ManagedLocal) && !j.daemonStarted)
  }

  // ---- host artifacts ----

  /** The artifact a record describes. */
  function Recorded(r: HostRecord): Artifact {
    match r.kind
    case AbsentRecord => Absent
    case FileRecord(_, _, sha, meta) => File(sha.preimage, meta)
    case SymlinkRecord(target, meta) => Symlink(target, meta)
  }

  /** _verify_host_artifacts_exact: every recorded path holds exactly what was snapshotted. */
  predicate HostMatches(records: seq<HostRecord>, host: Host) {
    forall i :: 0 <= i < |records| ==> At(host, records[i].path) == Recorded(records[i])
  }

  // ---- journal rewrites ----

  function Retire(j: Journal): Journal {
    j.(hostArtifacts := [], native := None, enable := [], start := [], activeBefore := [],
       baseline := [], armed := false, daemonStarted := false, restored := false, retired := true)
  }

  function CommitRecord(j: Journal): Journal {
    j.(phase := Committed, enable := [], start := [], activeBefore := [], baseline := [],
       armed := false, daemonStarted := false)
  }

  /** Rollback of a transaction that never armed its consumers. */
  function UnarmedRollback(j: Journal): Journal {
    j.(phase := RolledBack, activeBefore := [], baseline := [], armed := false, restored := false)
  }

  /** End of a rollback that found no active baseline consumer. */
  function RollbackRecord(j: Journal): Journal {
    j.(phase := RolledBack, armed := false, restored := HostRestorePlanned(j))
  }

  function StartingRecord(j: Journal): Journal {
    j.(phase := StartingBaseline, restored := HostRestorePlanned(j))
  }

  function AcknowledgedRecord(j: Journal): Journal {
    j.(phase := RolledBack, activeBefore := [], baseline := [], armed := false)
  }
}
