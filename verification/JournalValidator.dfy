/** _validate_transaction, check by check in the order of the source; each method decides one declarative rule. */
module JournalValidator {
  import opened ReleaseTypes
  import opened JournalRules

  /** A backup exists and its bytes have the recorded digest. */
  method LoadBackup(backups: map<BackupId, Bytes>, id: BackupId, sha: Sha256) returns (ok: bool)
    ensures ok <==> Backed(backups, id, sha)
  {
    if id !in backups { return false; }
    return Sha256(backups[id]) == sha;
  }

  method IsNormal(path: string) returns (ok: bool)
    ensures ok <==> NormalPath(path)
  {
    if path == "" || path[0] != '/' || '\0' in path { return false; }
    return ".." !in Parts(path);
  }

  /** _host_paths_for_profile. */
  method HostPathsForProfile(allowlist: seq<HostPath>, profile: Option<Profile>) returns (paths: Option<seq<HostPath>>)
    ensures paths == HostPaths(allowlist, profile)
  {
    if profile.None? { return Some(allowlist); }
    if allowlist != [NginxConf, ApiUnit, DaemonUnit, Logrotate, Supervisor, RpcProbe, BoundaryHelper, NftDropIn, EnvFile] {
      return None;
    }
    return if profile == Some(Common) then Some([NginxConf, ApiUnit, EnvFile]) else Some(allowlist);
  }

  method ValidateHostArtifactRecord(backups: map<BackupId, Bytes>, r: HostRecord, tx: TxId, index: nat, expected: HostPath)
      returns (ok: bool)
    ensures ok <==> HostRecordValid(backups, r, tx, index, expected)
  {
    hide Parts;
    if r.path != expected { return false; }
    match r.kind {
      case AbsentRecord => return true;
      case FileRecord(backup, size, sha, meta) =>
        if size > MAX_HOST_ARTIFACT_BYTES { return false; }
        if meta.uid != EXPECTED_UID || meta.links != 1 || meta.mode & 0xE12 != 0 { return false; }
        if backup.tx != tx || backup.name != HostFile(index) { return false; }
        ok := LoadBackup(backups, backup, sha);
        return ok && size == |sha.preimage|;
      case SymlinkRecord(target, meta) =>
        if |target| > MAX_HOST_ARTIFACT_BYTES { return false; }
        if meta.uid != EXPECTED_UID || meta.links != 1 || meta.mode != 0x1FF { return false; }
        ok := IsNormal(target);
    }
  }

  method ValidateHostArtifactRecords(backups: map<BackupId, Bytes>, records: seq<HostRecord>, tx: TxId, expected: seq<HostPath>)
      returns (ok: bool)
    ensures ok <==> HostRecordsValid(backups, records, tx, expected)
  {
    hide HostRecordValid;
    if |records| != |expected| { return false; }
    var index := 0;
    while index < |records|
      invariant 0 <= index <= |records|
      invariant forall i :: 0 <= i < index ==> HostRecordValid(backups, records[i], tx, i, expected[i])
    {
      ok := ValidateHostArtifactRecord(backups, records[index], tx, index, expected[index]);
      if !ok { return; }
      index := index + 1;
    }
    return true;
  }

  method ValidateNativeBoundaryRecord(backups: map<BackupId, Bytes>, native: Option<NativeRecord>, tx: TxId, required: bool)
      returns (ok: bool)
    ensures ok <==> NativeValid(backups, native, tx, required)
  {
    hide SnapshotState;
    if !required { return native.None?; }
    if native.None? { return false; }
    var n := native.value;
    if n.snapshot != BackupId(tx, BoundarySnapshot) || n.helper != BackupId(tx, BoundaryHelperCopy) { return false; }
    var size, helperSize := |n.sha.preimage|, |n.helperSha.preimage|;
    if size == 0 || size > MAX_HOST_ARTIFACT_BYTES || helperSize == 0 || helperSize > MAX_HOST_ARTIFACT_BYTES { return false; }
    ok := LoadBackup(backups, n.snapshot, n.sha);
    if !ok { return; }
    ok := LoadBackup(backups, n.helper, n.helperSha);
    if !ok { return; }
    return SnapshotState(n.sha.preimage) == Some(n.state) && "#!/" <= n.helperSha.preimage;
  }

  method ValidateProcess(p: Process) returns (ok: bool)
    ensures ok <==> ProcessValid(p)
  {
    var fields := [p.workingDirectory, p.execStart, p.argv0, p.resolvedExec];
    var index := 0;
    while index < |fields|
      invariant 0 <= index <= |fields|
      invariant forall i :: 0 <= i < index ==> FieldValid(fields[i])
    {
      var field := fields[index];
      if field == "" || '\0' in field || |field| > 16 * 1024 {
        assert !FieldValid(fields[index]);
        return false;
      }
      index := index + 1;
    }
    assert FieldValid(fields[0]) && FieldValid(fields[1]) && FieldValid(fields[2]) && FieldValid(fields[3]);
    ok := IsNormal(p.workingDirectory);
    if !ok { return; }
    ok := IsNormal(p.argv0);
    if !ok { return; }
    ok := IsNormal(p.resolvedExec);
  }

  method ValidateConsumerBaselineRecord(backups: map<BackupId, Bytes>, b: BaselineRecord, tx: TxId, index: nat, unit: Unit)
      returns (ok: bool)
    ensures ok <==> BaselineRecordValid(backups, b, tx, index, unit)
  {
    hide ProcessValid;
    if b.of != unit { return false; }
    match unit {
      case Api =>
        if b.process.None? || b.response.Some? { return false; }
        ok := ValidateProcess(b.process.value);
      case Nginx =>
        if b.process.Some? || b.response.None? { return false; }
        var (id, sha) := b.response.value;
        if id != BackupId(tx, Response(index)) || |sha.preimage| == 0 || |sha.preimage| > MAX_HOST_ARTIFACT_BYTES { return false; }
        ok := LoadBackup(backups, id, sha);
      case Daemon =>
        return b.process.None? && b.response.None?;
    }
  }

  method ValidateConsumerBaselineRecords(backups: map<BackupId, Bytes>, baseline: seq<BaselineRecord>, tx: TxId, active: seq<Unit>)
      returns (ok: bool)
    ensures ok <==> BaselineValid(backups, baseline, tx, active)
  {
    hide BaselineRecordValid;
    if |baseline| != |active| { return false; }
    var index := 0;
    while index < |baseline|
      invariant 0 <= index <= |baseline|
      invariant forall i :: 0 <= i < index ==> BaselineRecordValid(backups, baseline[i], tx, i, active[i])
    {
      ok := ValidateConsumerBaselineRecord(backups, baseline[index], tx, index, active[index]);
      if !ok { return; }
      index := index + 1;
    }
    return true;
  }

  /** The digests of one transaction: what was selected, what was retained, what is to be selected. */
  method ValidateDigests(j: Journal) returns (ok: bool)
    ensures ok <==> DigestsValid(j)
  {
    if j.currentBefore == j.previousBefore && j.currentBefore != None { return false; }
    if j.currentBefore == Some(j.candidate) { return false; }
    return !(j.kind == Archive && j.previousBefore == Some(j.candidate));
  }

  method ValidatePlan(kind: Kind, plan: seq<Unit>) returns (ok: bool)
    ensures ok <==> PlanValid(kind, plan)
  {
    ok := IsInOrder(plan);
    if !ok { return; }
    match kind {
      case Archive => return Api in plan && Nginx in plan;
      case NMinusOne => return plan == [Api, Nginx];
      case LegacyBaseline => return plan == [];
      case SelectorOnly => return plan == [];
    }
  }

  /** The list is what its own units are in publication order. */
  method IsInOrder(units: seq<Unit>) returns (ok: bool)
    ensures ok <==> Canonical(units)
  {
    CanonicalIsOrdered(units);
    return units == InOrder(units);
  }

  lemma CanonicalIsOrdered(units: seq<Unit>)
    ensures Canonical(units) <==> units == InOrder(units)
  {
    if Canonical(units) { CanonicalIsUnique(units, InOrder(units)); }
  }

  method ValidateUnitLists(j: Journal) returns (ok: bool)
    ensures ok <==> UnitListsValid(j)
  {
    hide Canonical;
    var enable, active, start := j.enable, j.activeBefore, j.start;
    ok := IsInOrder(enable);
    if !ok { return; }
    ok := IsInOrder(active);
    if !ok || exists u :: u in active && u !in j.plan { return false; }
    ok := IsInOrder(start);
    if !ok || exists u :: u in start && u !in enable { return false; }
    return j.profile == Some(ManagedLocal) || Daemon !in enable + start + j.plan + active;
  }

  method ValidateMarkers(j: Journal) returns (ok: bool)
    ensures ok <==> MarkersValid(j)
  {
    var terminal := j.phase == Committed || j.phase == RolledBack;
    if j.retired && !terminal { return false; }
    if !j.armed && (j.activeBefore != [] || j.baseline != []) { return false; }
    if j.daemonStarted
       && (j.kind != Archive || j.profile != Some(ManagedLocal) || Daemon !in j.plan || j.retired
           || j.phase == Staging || j.phase == Finalizing || j.phase == Committed
           || (!j.armed && j.phase != RolledBack)) { return false; }
    return !(j.restored && j.phase != StartingBaseline && j.phase != RolledBack);
  }

  method ValidateRetirement(j: Journal) returns (ok: bool)
    ensures ok <==> (j.retired ==> Compact(j))
  {
    return !(j.retired && (j.hostArtifacts != [] || j.native != None || j.enable != [] || j.start != [] || j.activeBefore != []
                           || j.baseline != [] || j.armed || j.daemonStarted || j.restored));
  }

  /** _validate_transaction decides exactly the journal rules. */
  method ValidateTransaction(allowlist: seq<HostPath>, backups: map<BackupId, Bytes>, j: Journal) returns (ok: bool)
    ensures ok <==> Accepts(allowlist, backups, j)
  {
    hide DigestsValid, MarkersValid, HostPaths, HostRecordsValid, NativeValid, PlanValid, UnitListsValid, BaselineValid, Compact;
    ok := ValidateDigests(j);
    if !ok { return; }
    ok := ValidateMarkers(j);
    if !ok { return; }
    var expected := Some([]);
    if !j.retired { expected := HostPathsForProfile(allowlist, j.profile); }
    if expected.None? { return false; }
    ok := ValidateHostArtifactRecords(backups, j.hostArtifacts, j.id, expected.value);
    if !ok { return; }
    ok := ValidateNativeBoundaryRecord(backups, j.native, j.id, j.profile == Some(ManagedLocal) && !j.retired);
    if !ok { return; }
    ok := ValidatePlan(j.kind, j.plan);
    if !ok { return; }
    if j.kind == SelectorOnly && j.profile != None { return false; }
    ok := ValidateUnitLists(j);
    if !ok { return; }
    ok := ValidateConsumerBaselineRecords(backups, j.baseline, j.id, j.activeBefore);
    if !ok { return; }
    ok := ValidateRetirement(j);
  }
}
