/** The release protocol on one image of the disk: which journal may follow which, which
    selector write each phase permits, and the invariant every image satisfies. */
module Protocol {
  import opened ReleaseTypes
  import opened JournalRules

  /** The selectors as the transaction found them. */
  predicate AtBaseline(j: Journal, current: Option<Digest>, previous: Option<Digest>) {
    current == j.currentBefore && previous == j.previousBefore
  }

  /** The selectors the transaction is to publish. */
  predicate AtCandidate(j: Journal, current: Option<Digest>, previous: Option<Digest>) {
    current == Some(j.candidate) && previous == j.currentBefore
  }

  /** `current` switched forward, `previous` not yet. */
  predicate HalfForward(j: Journal, current: Option<Digest>, previous: Option<Digest>) {
    current == Some(j.candidate) && previous == j.previousBefore
  }

  /** `current` switched back from the candidate pair, `previous` not yet. */
  predicate HalfBack(j: Journal, current: Option<Digest>, previous: Option<Digest>) {
    current == j.currentBefore && previous == j.currentBefore
  }

  /** A rollback that removes `current` and then replaces `previous`: a removal of `current` that was not fsynced
      may still come back while `previous` is rolled back, and is fsynced with its replacement. */
  predicate Returns(j: Journal) {
    j.currentBefore.None? && j.previousBefore.Some?
  }

  /** A managed daemon plan whose daemon was never taken over. */
  predicate Unmarked(j: Journal) {
    ManagedDaemonPlan(j) && !j.daemonStarted && !j.phase.Finalizing? && !j.phase.Committed?
  }

  predicate SelectorsFit(j: Journal, c: Option<Digest>, p: Option<Digest>) {
    PhaseAdmits(j, c, p) && (Unmarked(j) ==> AtBaseline(j, c, p))
  }

  /** The selector pairs each phase admits. */
  predicate PhaseAdmits(j: Journal, c: Option<Digest>, p: Option<Digest>) {
    match j.phase
    case Staging | Prepared => AtBaseline(j, c, p)
    case SwitchingCurrent => AtBaseline(j, c, p) || HalfForward(j, c, p)
    case CurrentSwitched => HalfForward(j, c, p)
    case SwitchingPrevious => HalfForward(j, c, p) || AtCandidate(j, c, p)
    case Activated | Finalizing | Committed => AtCandidate(j, c, p)
    case StoppingConsumers | ConsumersStopped | RollingBackCurrent =>
      AtBaseline(j, c, p) || HalfForward(j, c, p) || AtCandidate(j, c, p) || HalfBack(j, c, p)
    case RollingBackPrevious =>
      AtBaseline(j, c, p) || HalfBack(j, c, p) || (Returns(j) && (HalfForward(j, c, p) || AtCandidate(j, c, p)))
    case RestoringNative | NativeRestored | RestoringHost | HostRestored => AtBaseline(j, c, p)
    case StartingBaseline | RolledBack => AtBaseline(j, c, p)
  }

  /** The releases a live journal may still select. */
  predicate ReleasesKept(j: Journal, releases: set<Digest>) {
    && Stored(releases, j.currentBefore)
    && (!j.phase.Committed? && !j.phase.Finalizing? ==> Stored(releases, j.previousBefore))
    && (!j.phase.Staging? && !j.phase.RolledBack? ==> j.candidate in releases)
  }

  /** Phases an interrupted, armed transaction is rolled back from. */
  predicate Undoable(p: Phase) {
    !p.Staging? && !p.Finalizing? && !Terminal(p) && !p.StartingBaseline?
  }

  /** The markers each phase can carry. */
  predicate PhaseShape(j: Journal) {
    && (j.kind.NMinusOne? ==> j.previousBefore == Some(j.candidate))
    && (!j.armed ==> j.phase.Staging? || j.phase.Prepared? || Terminal(j.phase))
    && (j.phase.Staging? || Terminal(j.phase) ==> !j.armed)
    && (ManagedDaemonPlan(j) && !j.daemonStarted ==>
          !j.phase.SwitchingCurrent? && !j.phase.CurrentSwitched? && !j.phase.SwitchingPrevious? && !j.phase.Activated?)
    && (j.phase.StoppingConsumers? || j.phase.ConsumersStopped? ==> EffectivePlan(j) != [])
    && (j.phase.RestoringNative? || j.phase.NativeRestored? ==> NativeRestorePlanned(j))
    && (j.phase.RestoringHost? || j.phase.HostRestored? ==> HostRestorePlanned(j))
    && (j.phase.StartingBaseline? ==> j.activeBefore != [] && j.restored == HostRestorePlanned(j))
    && (j.phase.RolledBack? ==> j.activeBefore == [] && (j.restored ==> HostRestorePlanned(j)))
    && (j.phase.Committed? ==> j.enable == [] && j.start == [] && j.activeBefore == [])
  }

  /** Journals under which the host must still, or again, hold exactly the snapshotted artifacts. */
  predicate HostExact(j: Journal) {
    && j.kind.Archive? && !j.retired && !j.phase.Finalizing? && !j.phase.Committed?
    && (|| !j.armed
        || !HostRestorePlanned(j)
        || j.phase.HostRestored? || j.phase.StartingBaseline?)
  }

  ghost predicate JournalGood(f: Files, j: Journal) {
    && Accepts(f.allowlist, f.backups, j)
    && PhaseShape(j)
    && SelectorsFit(j, f.current, f.previous)
    && ReleasesKept(j, f.releases)
    && (HostExact(j) ==> HostMatches(j.hostArtifacts, f.host))
  }

  predicate Unique(paths: seq<HostPath>) {
    forall i, k :: 0 <= i < k < |paths| ==> paths[i] != paths[k]
  }

  /** The invariant of one disk image. */
  ghost predicate Good(f: Files) {
    && Unique(f.allowlist)
    && match f.journal
       case None =>
         SlotsDistinct(f.current, f.previous) && Stored(f.releases, f.current) && Stored(f.releases, f.previous)
       case Some(j) => JournalGood(f, j)
  }

  // ---- journal transitions ----

  /** A new transaction: the first accepted `staging` journal over a quiescent deployment. */
  ghost predicate Opens(f: Files, j: Journal) {
    && j.phase.Staging? && !j.armed && !j.daemonStarted && !j.retired && !j.restored
    && j.currentBefore == f.current && j.previousBefore == f.previous
    && (j.kind.NMinusOne? ==> j.previousBefore == Some(j.candidate))
    && Accepts(f.allowlist, f.backups, j)
    && (j.kind.Archive? ==> HostMatches(j.hostArtifacts, f.host))
  }

  predicate Arms(f: Files, j: Journal, n: Journal) {
    && j.phase.Prepared? && !j.armed
    && n == j.(activeBefore := n.activeBefore, baseline := n.baseline, armed := true)
    && Canonical(n.activeBefore) && Within(n.activeBefore, j.plan)
    && BaselineValid(f.backups, n.baseline, j.id, n.activeBefore)
  }

  predicate MarksDaemon(j: Journal, n: Journal) {
    j.phase.Prepared? && j.armed && ManagedDaemonPlan(j) && n == j.(daemonStarted := true)
  }

  predicate RollbackEntry(j: Journal) {
    j.armed && Undoable(j.phase)
  }

  /** Selectors are back and, where planned, so are the boundary and the host. */
  predicate RestorationDone(f: Files, j: Journal) {
    || j.phase.HostRestored?
    || (j.phase.RollingBackPrevious? && !HostRestorePlanned(j) && AtBaseline(j, f.current, f.previous))
  }

  /** From the staged candidate to the retired commit. */
  predicate AdvancesForward(f: Files, j: Journal, n: Journal) {
    match n.phase
    case Prepared =>
      || (j.phase.Staging? && n == j.(phase := Prepared) && j.candidate in f.releases)
      || Arms(f, j, n)
      || MarksDaemon(j, n)
    case SwitchingCurrent =>
      j.phase.Prepared? && j.armed && (ManagedDaemonPlan(j) ==> j.daemonStarted) && n == j.(phase := SwitchingCurrent)
    case CurrentSwitched =>
      j.phase.SwitchingCurrent? && f.current == Some(j.candidate) && n == j.(phase := CurrentSwitched)
    case SwitchingPrevious => j.phase.CurrentSwitched? && n == j.(phase := SwitchingPrevious)
    case Activated => j.phase.SwitchingPrevious? && f.previous == j.currentBefore && n == j.(phase := Activated)
    case Finalizing => j.phase.Activated? && n == j.(phase := Finalizing, daemonStarted := false)
    case Committed =>
      || (j.phase.Finalizing? && n == CommitRecord(j))
      || (j.phase.Committed? && !j.retired && n == Retire(j))
    case _ => false
  }

  /** The steps of a rollback up to the restored host. */
  predicate Undoes(f: Files, j: Journal, n: Journal) {
    match n.phase
    case StoppingConsumers => RollbackEntry(j) && EffectivePlan(j) != [] && n == j.(phase := StoppingConsumers)
    case ConsumersStopped => j.phase.StoppingConsumers? && n == j.(phase := ConsumersStopped)
    case RollingBackCurrent =>
      (j.phase.ConsumersStopped? || (RollbackEntry(j) && EffectivePlan(j) == [])) && n == j.(phase := RollingBackCurrent)
    case RollingBackPrevious =>
      j.phase.RollingBackCurrent? && (f.current == j.currentBefore || Returns(j)) && n == j.(phase := RollingBackPrevious)
    case RestoringNative =>
      && j.phase.RollingBackPrevious? && AtBaseline(j, f.current, f.previous) && NativeRestorePlanned(j)
      && n == j.(phase := RestoringNative)
    case NativeRestored => j.phase.RestoringNative? && n == j.(phase := NativeRestored)
    case RestoringHost =>
      && (j.phase.NativeRestored?
          || (j.phase.RollingBackPrevious? && AtBaseline(j, f.current, f.previous)
              && HostRestorePlanned(j) && !NativeRestorePlanned(j)))
      && n == j.(phase := RestoringHost)
    case HostRestored =>
      j.phase.RestoringHost? && HostMatches(j.hostArtifacts, f.host) && n == j.(phase := HostRestored)
    case _ => false
  }

  /** The end of a rollback: pending baseline starts, the terminal record, its retirement. */
  predicate Concludes(f: Files, j: Journal, n: Journal) {
    match n.phase
    case StartingBaseline => RestorationDone(f, j) && j.activeBefore != [] && n == StartingRecord(j)
    case RolledBack =>
      || (!j.armed && (j.phase.Staging? || j.phase.Prepared?) && n == UnarmedRollback(j))
      || (RestorationDone(f, j) && j.activeBefore == [] && n == RollbackRecord(j))
      || (j.phase.StartingBaseline? && n == AcknowledgedRecord(j))
      || (j.phase.RolledBack? && !j.retired && n == Retire(j))
    case _ => false
  }

  /** The journal that may replace `j` in the image `f`. */
  predicate Advances(f: Files, j: Journal, n: Journal) {
    AdvancesForward(f, j, n) || Undoes(f, j, n) || Concludes(f, j, n)
  }

  /** A journal write the protocol permits on the image `f`. */
  ghost predicate Moves(f: Files, n: Journal) {
    match f.journal
    case None => Opens(f, n)
    case Some(j) => (j.retired && Opens(f, n)) || Advances(f, j, n)
  }

  lemma ForwardAdvances(f: Files, j: Journal, n: Journal)
    requires AdvancesForward(f, j, n)
    ensures Advances(f, j, n)
  {
  }

  lemma UndoAdvances(f: Files, j: Journal, n: Journal)
    requires Undoes(f, j, n)
    ensures Advances(f, j, n) && !Terminal(n.phase) && !n.phase.StartingBaseline? && !n.phase.Activated? && !n.phase.Prepared?
  {
  }

  lemma ConclusionAdvances(f: Files, j: Journal, n: Journal)
    requires Concludes(f, j, n)
    ensures Advances(f, j, n)
  {
  }

  // ---- selector and store writes ----

  predicate MaySelect(f: Files, slot: Slot, d: Option<Digest>) {
    && f.journal.Some?
    && var j := f.journal.value;
       || (slot.Current? && j.phase.SwitchingCurrent? && d == Some(j.candidate))
       || (slot.Previous? && j.phase.SwitchingPrevious? && d == j.currentBefore)
       || (slot.Current? && j.phase.RollingBackCurrent? && d == j.currentBefore)
       || (slot.Previous? && j.phase.RollingBackPrevious? && d == j.previousBefore)
  }

  function Select(f: Files, slot: Slot, d: Option<Digest>): Files {
    match slot
    case Current => f.(current := d)
    case Previous => f.(previous := d)
  }

  function Selected(slot: Option<Digest>): set<Digest> {
    if slot.Some? then {slot.value} else {}
  }

  /** The releases a terminal cleanup keeps. */
  function Retained(f: Files): set<Digest> {
    Selected(f.current) + Selected(f.previous)
  }

  /** The releases a disk names: selected, a rollback target, or the candidate of a transaction past staging. */
  function Needed(f: Files): set<Digest> {
    Retained(f) +
    match f.journal
    case None => {}
    case Some(j) =>
      Selected(j.currentBefore)
      + (if j.phase.Finalizing? || j.phase.Committed? then {} else Selected(j.previousBefore))
      + (if j.phase.Staging? || j.phase.RolledBack? then {} else {j.candidate})
  }

  /** A release may be pruned only when nothing names it. */
  predicate MayPrune(f: Files, d: Digest) {
    d !in Needed(f)
  }

  /** A backup byte may be removed only when the journal does not need it. */
  predicate MayForget(f: Files, id: BackupId) {
    f.journal.Some? ==> !References(f.journal.value, id)
  }

  /** A host path may change only while no live archive journal relies on its snapshot. */
  predicate MayChangeHost(f: Files) {
    f.journal.Some? ==> !HostExact(f.journal.value)
  }

  // ---- the consumers of a transaction ----

  /** A rollback stops every unit of the plan but a daemon without its marker, and owes a restart to every unit that was
      active before but such a daemon. */
  lemma ConsumersOfJournal(f: Files, j: Journal)
    requires Good(f) && f.journal == Some(j)
    ensures forall u :: u in EffectivePlan(j) <==> u in j.plan && (u.Daemon? ==> j.daemonStarted)
    ensures forall u :: Fenced(j, u) <==> u in j.activeBefore && (u.Daemon? ==> j.daemonStarted)
    ensures Daemon in j.plan && j.daemonStarted ==> NativeRestorePlanned(j)
    ensures Daemon in j.plan && !Terminal(j.phase) ==> j.native.Some?
    ensures HostRestorePlanned(j) <==> j.kind.Archive? && (Daemon in j.plan ==> j.daemonStarted)
  {
    assert Accepts(f.allowlist, f.backups, j);
  }

  // ---- journal writes keep the invariant ----

  /** Rewriting only phase and markers keeps a journal acceptable as long as the markers agree. */
  lemma RemarkedIsAccepted(f: Files, j: Journal, n: Journal)
    requires Accepts(f.allowlist, f.backups, j) && !j.retired
    requires n == j.(phase := n.phase, armed := n.armed, daemonStarted := n.daemonStarted, restored := n.restored)
    requires MarkersValid(n)
    ensures Accepts(f.allowlist, f.backups, n)
  {
  }

  /** Dropping the unit lists of an accepted journal keeps it acceptable. */
  lemma EmptiedIsAccepted(f: Files, j: Journal, n: Journal)
    requires Accepts(f.allowlist, f.backups, j) && !j.retired
    requires n == j.(phase := n.phase, enable := n.enable, start := n.start, activeBefore := [], baseline := [],
                     armed := n.armed, daemonStarted := n.daemonStarted, restored := n.restored)
    requires (n.enable == j.enable && n.start == j.start) || (n.enable == [] && n.start == [])
    requires MarkersValid(n)
    ensures Accepts(f.allowlist, f.backups, n)
  {
  }

  lemma RetiredIsAccepted(f: Files, j: Journal)
    requires Accepts(f.allowlist, f.backups, j) && Terminal(j.phase)
    ensures Accepts(f.allowlist, f.backups, Retire(j))
  {
  }

  lemma ArmedIsAccepted(f: Files, j: Journal, n: Journal)
    requires Accepts(f.allowlist, f.backups, j) && Arms(f, j, n)
    ensures Accepts(f.allowlist, f.backups, n)
  {
  }

  /** Every journal the protocol writes is one the validator accepts. */
  lemma MovesAreAccepted(f: Files, n: Journal)
    requires Good(f) && Moves(f, n)
    ensures Accepts(f.allowlist, f.backups, n)
  {
    if f.journal.Some? && Advances(f, f.journal.value, n) {
      var j := f.journal.value;
      AdvanceIsAccepted(f, j, n);
    }
  }

  lemma AdvanceIsAccepted(f: Files, j: Journal, n: Journal)
    requires Accepts(f.allowlist, f.backups, j) && PhaseShape(j) && Advances(f, j, n)
    ensures Accepts(f.allowlist, f.backups, n)
  {
    if AdvancesForward(f, j, n) {
      ForwardIsAccepted(f, j, n);
    } else if Undoes(f, j, n) {
      UndoMarkers(f, j, n);
      RemarkedIsAccepted(f, j, n);
    } else {
      ConclusionIsAccepted(f, j, n);
    }
  }

  lemma ForwardIsAccepted(f: Files, j: Journal, n: Journal)
    requires Accepts(f.allowlist, f.backups, j) && PhaseShape(j) && AdvancesForward(f, j, n)
    ensures Accepts(f.allowlist, f.backups, n)
  {
    ForwardMarkers(f, j, n);
    if n.retired {
      RetiredIsAccepted(f, j);
    } else if Arms(f, j, n) {
      ArmedIsAccepted(f, j, n);
    } else if n.phase.Committed? {
      EmptiedIsAccepted(f, j, n);
    } else {
      RemarkedIsAccepted(f, j, n);
    }
  }

  lemma ConclusionIsAccepted(f: Files, j: Journal, n: Journal)
    requires Accepts(f.allowlist, f.backups, j) && PhaseShape(j) && Concludes(f, j, n)
    ensures Accepts(f.allowlist, f.backups, n)
  {
    ConclusionMarkers(f, j, n);
    if n.retired {
      RetiredIsAccepted(f, j);
    } else if n == UnarmedRollback(j) || n == AcknowledgedRecord(j) {
      EmptiedIsAccepted(f, j, n);
    } else {
      RemarkedIsAccepted(f, j, n);
    }
  }

  lemma ForwardMarkers(f: Files, j: Journal, n: Journal)
    requires MarkersValid(j) && PhaseShape(j) && AdvancesForward(f, j, n)
    ensures MarkersValid(n) && PhaseShape(n) && (j.retired ==> n.retired)
    ensures n.phase.Committed? && !n.retired ==> n == CommitRecord(j)
  {
  }

  lemma UndoMarkers(f: Files, j: Journal, n: Journal)
    requires MarkersValid(j) && PhaseShape(j) && Undoes(f, j, n)
    ensures MarkersValid(n) && PhaseShape(n) && !j.retired && n == j.(phase := n.phase)
  {
  }

  lemma ConclusionMarkers(f: Files, j: Journal, n: Journal)
    requires MarkersValid(j) && PhaseShape(j) && |j.baseline| == |j.activeBefore| && Concludes(f, j, n)
    ensures MarkersValid(n) && PhaseShape(n) && !j.retired
  {
  }

  lemma MoveKeepsGood(f: Files, n: Journal)
    requires Good(f) && Moves(f, n)
    ensures Good(f.(journal := Some(n)))
  {
    MovesAreAccepted(f, n);
    if f.journal.Some? && Advances(f, f.journal.value, n) {
      AdvanceKeepsGood(f, f.journal.value, n);
    }
  }

  lemma AdvanceKeepsGood(f: Files, j: Journal, n: Journal)
    requires JournalGood(f, j) && Advances(f, j, n) && Accepts(f.allowlist, f.backups, n)
    ensures JournalGood(f.(journal := Some(n)), n)
  {
    if AdvancesForward(f, j, n) {
      ForwardMarkers(f, j, n);
      ForwardKeepsSelectors(f, j, n);
    } else if Undoes(f, j, n) {
      UndoMarkers(f, j, n);
      UndoKeepsSelectors(f, j, n);
    } else {
      ConclusionMarkers(f, j, n);
      ConclusionKeepsSelectors(f, j, n);
    }
    AdvanceKeepsHost(f, j, n);
  }

  lemma ForwardKeepsSelectors(f: Files, j: Journal, n: Journal)
    requires DigestsValid(j) && SelectorsFit(j, f.current, f.previous) && ReleasesKept(j, f.releases)
    requires AdvancesForward(f, j, n)
    ensures SelectorsFit(n, f.current, f.previous) && ReleasesKept(n, f.releases)
  {
    ForwardAdmits(f, j, n);
    ForwardStaysMarked(f, j, n);
    ForwardKeepsReleases(f, j, n);
  }

  lemma ForwardAdmits(f: Files, j: Journal, n: Journal)
    requires PhaseAdmits(j, f.current, f.previous) && AdvancesForward(f, j, n)
    ensures PhaseAdmits(n, f.current, f.previous)
  {
  }

  lemma ForwardStaysMarked(f: Files, j: Journal, n: Journal)
    requires SelectorsFit(j, f.current, f.previous) && AdvancesForward(f, j, n)
    ensures Unmarked(n) ==> AtBaseline(n, f.current, f.previous)
  {
  }

  lemma ForwardKeepsReleases(f: Files, j: Journal, n: Journal)
    requires ReleasesKept(j, f.releases) && AdvancesForward(f, j, n)
    ensures ReleasesKept(n, f.releases)
  {
  }

  /** The four pairs an interrupted activation or rollback can leave. */
  predicate Between(j: Journal, c: Option<Digest>, p: Option<Digest>) {
    AtBaseline(j, c, p) || HalfForward(j, c, p) || AtCandidate(j, c, p) || HalfBack(j, c, p)
  }

  lemma EveryPhaseIsBetween(j: Journal, c: Option<Digest>, p: Option<Digest>)
    requires PhaseAdmits(j, c, p)
    ensures Between(j, c, p)
  {
  }

  lemma UndoKeepsSelectors(f: Files, j: Journal, n: Journal)
    requires SelectorsFit(j, f.current, f.previous) && ReleasesKept(j, f.releases)
    requires Undoes(f, j, n)
    ensures SelectorsFit(n, f.current, f.previous) && ReleasesKept(n, f.releases)
  {
    UndoAdmits(f, j, n);
    UndoIsRewrite(f, j, n);
  }

  lemma UndoAdmits(f: Files, j: Journal, n: Journal)
    requires PhaseAdmits(j, f.current, f.previous) && Undoes(f, j, n)
    ensures PhaseAdmits(n, f.current, f.previous)
  {
    if n.phase.StoppingConsumers? || n.phase.ConsumersStopped? || n.phase.RollingBackCurrent? {
      EveryPhaseIsBetween(j, f.current, f.previous);
    }
  }

  lemma UndoIsRewrite(f: Files, j: Journal, n: Journal)
    requires Undoes(f, j, n)
    ensures n == j.(phase := n.phase) && !j.phase.Staging? && !Terminal(j.phase) && !j.phase.Finalizing?
    ensures !n.phase.Staging? && !Terminal(n.phase) && !n.phase.Finalizing?
  {
  }

  lemma ConclusionKeepsSelectors(f: Files, j: Journal, n: Journal)
    requires DigestsValid(j) && SelectorsFit(j, f.current, f.previous) && ReleasesKept(j, f.releases)
    requires Concludes(f, j, n)
    ensures SelectorsFit(n, f.current, f.previous) && ReleasesKept(n, f.releases)
  {
  }

  lemma AdvanceKeepsHost(f: Files, j: Journal, n: Journal)
    requires PhaseShape(j) && MarkersValid(j) && Advances(f, j, n)
    requires HostExact(j) ==> HostMatches(j.hostArtifacts, f.host)
    ensures HostExact(n) ==> HostMatches(n.hostArtifacts, f.host)
  {
    if HostExact(n) {
      if !HostExact(j) {
        OnlyRestorationMakesExact(f, j, n);
      }
      assert n.hostArtifacts == j.hostArtifacts;
    }
  }

  lemma OnlyRestorationMakesExact(f: Files, j: Journal, n: Journal)
    requires PhaseShape(j) && MarkersValid(j) && Advances(f, j, n)
    requires HostExact(n) && !HostExact(j)
    ensures j.phase.RestoringHost? && HostMatches(j.hostArtifacts, f.host)
  {
    if AdvancesForward(f, j, n) {
      ForwardNeverMakesExact(f, j, n);
    } else if Undoes(f, j, n) {
      assert n == j.(phase := n.phase) && j.armed == n.armed;
    }
  }

  lemma ForwardNeverMakesExact(f: Files, j: Journal, n: Journal)
    requires PhaseShape(j) && MarkersValid(j) && AdvancesForward(f, j, n)
    ensures HostExact(n) ==> HostExact(j)
  {
  }

  lemma SelectKeepsGood(f: Files, slot: Slot, d: Option<Digest>)
    requires Good(f) && MaySelect(f, slot, d)
    ensures Good(Select(f, slot, d))
  {
  }

  // ---- store writes keep the invariant ----

  /** A journal is judged by the backups it references and by no others. */
  lemma AcceptsReadsReferencesOnly(allowlist: seq<HostPath>, b: map<BackupId, Bytes>, c: map<BackupId, Bytes>, j: Journal)
    requires Accepts(allowlist, b, j)
    requires forall id :: id in b && References(j, id) ==> id in c && c[id] == b[id]
    ensures Accepts(allowlist, c, j)
  {
  }

  /** Everything a good disk names is in its store. */
  lemma NeededIsStored(f: Files)
    requires Good(f)
    ensures Needed(f) <= f.releases
  {
    if f.journal.Some? {
      assert ReleasesKept(f.journal.value, f.releases) && PhaseAdmits(f.journal.value, f.current, f.previous);
    }
  }

  /** A quiescent disk names nothing but its selected releases. */
  lemma QuiescentNeeds(f: Files)
    requires Good(f) && (f.journal.Some? ==> Terminal(f.journal.value.phase))
    ensures Needed(f) == Retained(f)
  {
  }

  /** Images that agree on everything but unneeded bytes are equally good. */
  lemma GoodIgnoresGarbage(f: Files, g: Files)
    requires Good(f)
    requires g == f.(releases := g.releases, backups := g.backups, host := g.host)
    requires forall p :: At(g.host, p) == At(f.host, p)
    requires forall d :: d in f.releases && !MayPrune(f, d) ==> d in g.releases
    requires forall id :: id in f.backups && !MayForget(f, id) ==> id in g.backups && g.backups[id] == f.backups[id]
    ensures Good(g)
  {
    if f.journal.Some? {
      var j := f.journal.value;
      AcceptsReadsReferencesOnly(f.allowlist, f.backups, g.backups, j);
      assert Terminal(j.phase) ==> ReleasesKept(j, Retained(f));
    }
  }

  /** A host change the protocol permits is outside every claim about the host. */
  lemma HostChangeKeepsGood(f: Files, host: Host)
    requires Good(f) && MayChangeHost(f)
    ensures Good(f.(host := host))
  {
  }
}
