/** Legal runs, from a clean deployment, that end where a restarted recovery is not safe. */
module RestartWitnesses {
  import opened ReleaseTypes
  import opened JournalRules
  import opened Protocol
  import opened CrashModel
  import opened Recovery
  import opened Runs
  import opened ReconcileScript
  import opened UnflushedRestart

  // ---- runs on a disk that is fully synced ----

  function Full(f: Files): World {
    World(f, f, {}, {}, {})
  }

  lemma FullIsInv(f: Files)
    requires Good(f)
    ensures Inv(Full(f))
  {
    forall g | Image(Full(f), g) ensures Good(g) {
      SameHost(g.host, f.host);
      assert g.backups == f.backups;
      assert g == f;
    }
  }

  /** From the clean deployment `f0` the run leads to the synced disk `f`. */
  ghost predicate Leads(f0: Files, steps: seq<Step>, f: Files) {
    && f0.journal.None? && Good(f0)
    && Inv(Full(f)) && Legal(Full(f0), steps) && After(Full(f0), steps) == Full(f)
  }

  lemma Extend(f0: Files, steps: seq<Step>, f: Files, more: seq<Step>, g: Files)
    requires Leads(f0, steps, f) && Legal(Full(f), more) && After(Full(f), more) == Full(g) && Inv(Full(g))
    ensures Leads(f0, steps + more, g)
  {
    hide Good, Inv, Legal, After;
    LegalJoin(Full(f0), steps, more);
  }

  lemma LeadsOn(f0: Files, steps: seq<Step>, f: Files, j: Journal, n: Journal)
    requires Leads(f0, steps, f) && f.journal == Some(j) && Advances(f, j, n) && UnitEvidence(Full(f), n) && !Reports(n)
    ensures Leads(f0, steps + Log(n), f.(journal := Some(n)))
  {
    hide Good, Inv, Legal, After, Advances;
    LogIsLegal(Full(f), j, n);
    Extend(f0, steps, f, Log(n), f.(journal := Some(n)));
  }

  lemma LeadsToOpening(f0: Files, steps: seq<Step>, f: Files, n: Journal)
    requires Leads(f0, steps, f) && f.journal.None? && Opens(f, n)
    requires HostMatches(n.hostArtifacts, f.host)
    ensures Leads(f0, steps + Log(n), f.(journal := Some(n)))
  {
    hide Good, Inv, Legal, After, Accepts, HostMatches;
    var w := Full(f);
    MayOpen(w, n);
    LegalTwo(w, PutJournal(n), SyncState);
    StepKeepsInv(w, PutJournal(n));
    StepKeepsInv(Do(w, PutJournal(n)), SyncState);
    Extend(f0, steps, f, Log(n), f.(journal := Some(n)));
  }

  lemma LeadsToRelease(f0: Files, steps: seq<Step>, f: Files, d: Digest)
    requires Leads(f0, steps, f)
    ensures Leads(f0, steps + [AddRelease(d), SyncReleases], f.(releases := f.releases + {d}))
  {
    hide Good, Inv, Legal, After;
    var w := Full(f);
    LegalTwo(w, AddRelease(d), SyncReleases);
    StepKeepsInv(w, AddRelease(d));
    StepKeepsInv(Do(w, AddRelease(d)), SyncReleases);
    Extend(f0, steps, f, [AddRelease(d), SyncReleases], f.(releases := f.releases + {d}));
  }

  lemma LeadsToBackup(f0: Files, steps: seq<Step>, f: Files, id: BackupId, content: Bytes)
    requires Leads(f0, steps, f) && id !in f.backups
    ensures Leads(f0, steps + [PutBackup(id, content), SyncSnapshot], f.(backups := f.backups[id := content]))
  {
    hide Good, Inv, Legal, After;
    var w := Full(f);
    LegalTwo(w, PutBackup(id, content), SyncSnapshot);
    StepKeepsInv(w, PutBackup(id, content));
    StepKeepsInv(Do(w, PutBackup(id, content)), SyncSnapshot);
    Extend(f0, steps, f, [PutBackup(id, content), SyncSnapshot], f.(backups := f.backups[id := content]));
  }

  lemma LeadsToSelection(f0: Files, steps: seq<Step>, f: Files, slot: Slot, d: Digest)
    requires Leads(f0, steps, f) && MaySelect(f, slot, Some(d))
    ensures Leads(f0, steps + Pick(f, slot, Some(d)), Select(f, slot, Some(d)))
  {
    hide Good, Inv, Legal, After, MaySelect;
    PickIsLegal(Full(f), slot, Some(d));
    Extend(f0, steps, f, Pick(f, slot, Some(d)), Select(f, slot, Some(d)));
  }

  // ---- a first installation up to `activated` ----

  const CLEAN := Files([], None, None, None, {}, map[], map[])

  function First(p: Phase, armed: bool, enable: seq<Unit>): Journal {
    Journal(1, SelectorOnly, p, 7, None, None, [], None, None, enable, [], [], [], [], armed, false, false, false)
  }

  lemma FirstInstallation(enable: seq<Unit>) returns (steps: seq<Step>, f: Files)
    requires enable == [] || enable == [Api]
    ensures Leads(CLEAN, steps, f)
    ensures f.journal == Some(First(Activated, true, enable)) && f.current == Some(7) && f.previous == None
    ensures f.backups == map[] && f.releases == {7}
  {
    hide Legal, After, Inv, Leads, Advances, Opens;
    steps, f := FirstArmed(enable);
    steps, f := Forward(steps, f, First(SwitchingCurrent, true, enable));
    LeadsToSelection(CLEAN, steps, f, Current, 7);
    steps, f := steps + Pick(f, Current, Some(7)), Select(f, Current, Some(7));
    steps, f := Forward(steps, f, First(CurrentSwitched, true, enable));
    steps, f := Forward(steps, f, First(SwitchingPrevious, true, enable));
    steps, f := Forward(steps, f, First(Activated, true, enable));
  }

  lemma FirstArmed(enable: seq<Unit>) returns (steps: seq<Step>, f: Files)
    requires enable == [] || enable == [Api]
    ensures Leads(CLEAN, steps, f)
    ensures f == CLEAN.(journal := Some(First(Prepared, true, enable)), releases := {7})
  {
    hide Legal, After, Inv, Advances;
    FullIsInv(CLEAN);
    LegalNothing(Full(CLEAN));
    assert Leads(CLEAN, [], CLEAN);
    LeadsToOpening(CLEAN, [], CLEAN, First(Staging, false, enable));
    steps, f := [] + Log(First(Staging, false, enable)), CLEAN.(journal := Some(First(Staging, false, enable)));
    LeadsToRelease(CLEAN, steps, f, 7);
    steps, f := steps + [AddRelease(7), SyncReleases], f.(releases := f.releases + {7});
    steps, f := Forward(steps, f, First(Prepared, false, enable));
    steps, f := Forward(steps, f, First(Prepared, true, enable));
  }

  lemma Forward(steps: seq<Step>, f: Files, n: Journal) returns (steps': seq<Step>, g: Files)
    requires Leads(CLEAN, steps, f) && f.journal.Some? && AdvancesForward(f, f.journal.value, n)
    requires !n.phase.Committed?
    ensures Leads(CLEAN, steps', g) && g == f.(journal := Some(n))
  {
    hide Legal, After, Inv, Leads, AdvancesForward;
    ForwardAdvances(f, f.journal.value, n);
    ForwardIsNoConclusion(f, f.journal.value, n);
    LeadsOn(CLEAN, steps, f, f.journal.value, n);
    steps', g := steps + Log(n), f.(journal := Some(n));
  }

  lemma ForwardIsNoConclusion(f: Files, j: Journal, n: Journal)
    requires AdvancesForward(f, j, n)
    ensures !n.phase.RolledBack? && !Reports(n)
  {
  }

  // ---- the witnesses ----

  /** The machine keeps running after a kill that lost the fsync of one write. */
  ghost predicate Reached(f0: Files, steps: seq<Step>, w: World) {
    && f0.journal.None? && Good(f0)
    && Legal(Full(f0), steps) && w == After(Full(f0), steps) && Inv(w)
  }

  lemma OneMoreWrite(f0: Files, steps: seq<Step>, f: Files, s: Step)
    requires Leads(f0, steps, f) && Allowed(Full(f), s) && Attested([], s)
    ensures Reached(f0, steps + [s], Do(Full(f), s))
  {
    hide Good, Inv, Legal, After, Allowed;
    LegalOne(Full(f), s);
    LegalJoin(Full(f0), steps, [s]);
    StepKeepsInv(Full(f), s);
  }

  lemma ReachedMore(f0: Files, steps: seq<Step>, w: World, s: Step)
    requires Reached(f0, steps, w) && Allowed(w, s) && Attested([], s)
    ensures Reached(f0, steps + [s], Do(w, s))
  {
    hide Good, Inv, Legal, After, Allowed;
    AfterOneMore(Full(f0), steps, s);
    StepKeepsInv(w, s);
  }

  /** A first installation rolled back and killed after the unlink of `current`. */
  lemma LostRemovalHappens() returns (steps: seq<Step>, w: World)
    ensures Reached(CLEAN, steps, w) && w.vis.journal.Some?
    ensures RollbackEntry(w.vis.journal.value) && Stranded(w, w.vis.journal.value) && !EveryCrashSurvives(w)
  {
    hide Legal, After, Inv, Leads, Reached, EveryCrashSurvives;
    var f;
    steps, f := FirstInstallation([Api]);
    var j, n := First(Activated, true, [Api]), First(RollingBackCurrent, true, [Api]);
    UndoAdvances(f, j, n);
    LeadsOn(CLEAN, steps, f, j, n);
    var g := f.(journal := Some(n));
    MaySelectEverywhere(Full(g), Current, None);
    OneMoreWrite(CLEAN, steps + Log(n), g, PutSelector(Current, None));
    steps, w := steps + Log(n) + [PutSelector(Current, None)], Do(Full(g), PutSelector(Current, None));
    ReachedIsInv(CLEAN, steps, w);
    ResumableIsExact(w);
  }

  lemma ReachedIsInv(f0: Files, steps: seq<Step>, w: World)
    requires Reached(f0, steps, w)
    ensures Inv(w)
  {
  }

  /** A commit killed between the replacement of the journal and its fsync. */
  lemma LostIntentHappens() returns (steps: seq<Step>, w: World)
    ensures Reached(CLEAN, steps, w) && w.vis.journal.Some?
    ensures w.vis.journal.value.phase.Finalizing? && w.vis.journal.value.enable == [Api]
    ensures w.dur.journal == Some(First(Activated, true, [Api])) && !EveryCrashSurvives(w)
  {
    hide Legal, After, Inv, Leads, Reached, EveryCrashSurvives;
    var f;
    steps, f := FirstInstallation([Api]);
    var n := First(Finalizing, true, [Api]);
    ForwardSteps(f, First(Activated, true, [Api]));
    AdvanceEverywhere(Full(f), First(Activated, true, [Api]), n);
    OneMoreWrite(CLEAN, steps, f, PutJournal(n));
    steps, w := steps + [PutJournal(n)], Do(Full(f), PutJournal(n));
    ReachedIsInv(CLEAN, steps, w);
    ResumableIsExact(w);
  }

  /** A commit with nothing to enable, and its retirement, killed before each of the three fsyncs: nothing is left that
      the cleanup could take, but the reported commit is still to be lost. */
  lemma LostRegisterHappens() returns (steps: seq<Step>, w: World)
    ensures Reached(CLEAN, steps, w) && w.vis.journal.Some? && w.vis.journal.value.retired
    ensures CleanupHarmless(w) && Abstract(w.vis) == Register(Some(7), None) && Abstract(w.dur) == Register(None, None)
    ensures !EveryCrashSurvives(w)
  {
    hide Legal, After, Inv, Leads, Reached, EveryCrashSurvives, Advances;
    var f;
    steps, f := FirstInstallation([]);
    var a, n := First(Activated, true, []), First(Finalizing, true, []);
    ForwardSteps(f, a);
    AdvanceEverywhere(Full(f), a, n);
    OneMoreWrite(CLEAN, steps, f, PutJournal(n));
    steps, w := steps + [PutJournal(n)], Do(Full(f), PutJournal(n));
    ConclusionSteps(w.vis, n);
    ConclusionSteps(w.dur, n);
    steps, w := Unsynced(steps, w, n, CommitRecord(n));
    ConclusionSteps(w.vis, CommitRecord(n));
    ConclusionSteps(w.dur, CommitRecord(n));
    steps, w := Unsynced(steps, w, CommitRecord(n), Retire(CommitRecord(n)));
    ReachedIsInv(CLEAN, steps, w);
    SelectedIsNeeded(w, f);
    ResumableIsExact(w);
  }

  lemma Unsynced(steps: seq<Step>, w: World, j: Journal, n: Journal) returns (steps': seq<Step>, x: World)
    requires Reached(CLEAN, steps, w) && w.vis.journal == Some(j) && Advances(w.vis, j, n) && Advances(w.dur, j, n)
    requires UnitEvidence(w, n) && !HandsOver(n) && !Reports(n)
    ensures Reached(CLEAN, steps', x) && x == w.(vis := w.vis.(journal := Some(n)))
  {
    hide Legal, After, Inv, Leads, Reached, Advances, Allowed;
    ReachedIsInv(CLEAN, steps, w);
    InvHasAllowlist(w);
    AdvanceEverywhere(w, j, n);
    ReachedMore(CLEAN, steps, w, PutJournal(n));
    steps', x := steps + [PutJournal(n)], Do(w, PutJournal(n));
  }

  lemma SelectedIsNeeded(w: World, f: Files)
    requires w.dur == f && f.journal == Some(First(Activated, true, [])) && f.current == Some(7) && f.previous == None
    requires w.vis == f.(journal := w.vis.journal) && f.backups == map[] && f.releases == {7}
    ensures CleanupHarmless(w)
  {
  }

  const OWNED := Files([Other(0)], None, None, None, {}, map[], map[Other(0) := File("x", Metadata(0, 0, 0x1a4, 1))])

  const SNAPSHOT := BackupId(1, HostFile(0))

  function Baseline(p: Phase): Journal {
    Journal(1, LegacyBaseline, p, 7, None, None,
            [HostRecord(Other(0), FileRecord(SNAPSHOT, 1, Sha256("x"), Metadata(0, 0, 0x1a4, 1)))], None, None,
            [], [], [], [], [], false, false, false, false)
  }

  lemma OpensBaseline(f: Files)
    requires f == OWNED.(backups := OWNED.backups[SNAPSHOT := "x"])
    ensures Opens(f, Baseline(Staging)) && HostMatches(Baseline(Staging).hostArtifacts, f.host)
  {
  }

  /** A staged baseline, rolled back but not yet retired. */
  lemma BaselineRolledBack() returns (steps: seq<Step>, f: Files)
    ensures Leads(OWNED, steps, f)
    ensures f == OWNED.(journal := Some(Baseline(RolledBack)), backups := OWNED.backups[SNAPSHOT := "x"])
  {
    hide Legal, After, Inv, Advances, Opens;
    FullIsInv(OWNED);
    LegalNothing(Full(OWNED));
    assert Leads(OWNED, [], OWNED);
    LeadsToBackup(OWNED, [], OWNED, SNAPSHOT, "x");
    steps := [] + [PutBackup(SNAPSHOT, "x"), SyncSnapshot];
    f := OWNED.(backups := OWNED.backups[SNAPSHOT := "x"]);
    hide Leads;
    OpensBaseline(f);
    LeadsToOpening(OWNED, steps, f, Baseline(Staging));
    steps, f := steps + Log(Baseline(Staging)), f.(journal := Some(Baseline(Staging)));
    ConclusionSteps(f, Baseline(Staging));
    ConclusionAdvances(f, Baseline(Staging), UnarmedRollback(Baseline(Staging)));
    LeadsOn(OWNED, steps, f, Baseline(Staging), Baseline(RolledBack));
    steps, f := steps + Log(Baseline(RolledBack)), f.(journal := Some(Baseline(RolledBack)));
  }

  /** A staged baseline rolled back and killed between the replacement of its retired journal and the fsync. */
  lemma LostRetirementHappens() returns (steps: seq<Step>, w: World)
    ensures Reached(OWNED, steps, w) && w.vis.journal == Some(Retire(Baseline(RolledBack)))
    ensures w.dur.journal == Some(Baseline(RolledBack)) && SNAPSHOT in w.vis.backups
    ensures References(Baseline(RolledBack), SNAPSHOT) && !EveryCrashSurvives(w)
  {
    hide Legal, After, Inv, Reached, EveryCrashSurvives, Advances;
    var f;
    steps, f := BaselineRolledBack();
    var n := Retire(Baseline(RolledBack));
    ConclusionSteps(f, Baseline(RolledBack));
    AdvanceEverywhere(Full(f), Baseline(RolledBack), n);
    OneMoreWrite(OWNED, steps, f, PutJournal(n));
    steps, w := steps + [PutJournal(n)], Do(Full(f), PutJournal(n));
    ReachedIsInv(OWNED, steps, w);
    assert Baseline(RolledBack).hostArtifacts[0].kind.backup == SNAPSHOT;
    assert !MayForget(w.dur, SNAPSHOT);
    ResumableIsExact(w);
  }
}
