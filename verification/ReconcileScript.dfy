/** The writes of one uninterrupted reconcile, in order, as the visible files determine them; and the proof that
    from every resumable world each of them is justified in every crash image. */
module ReconcileScript {
  import opened ReleaseTypes
  import opened JournalRules
  import opened Protocol
  import opened CrashModel
  import opened Recovery
  import opened Runs

  // ---- the writes ----

  /** _write_transaction. */
  function Log(n: Journal): seq<Step> {
    [PutJournal(n), SyncState]
  }

  function Slotted(f: Files, slot: Slot): Option<Digest> {
    match slot
    case Current => f.current
    case Previous => f.previous
  }

  /** _atomic_set_selector. */
  function Pick(f: Files, slot: Slot, d: Option<Digest>): seq<Step> {
    if d.None? && Slotted(f, slot).None? then [] else [PutSelector(slot, d), SyncInstall]
  }

  /** _restore_host_artifacts. */
  function Restores(records: seq<HostRecord>): seq<Step> {
    if records == [] then []
    else
      var r := records[|records| - 1];
      Restores(records[..|records| - 1]) + [RestoreHost(r), SyncHost(r.path)]
  }

  /** The queued starts of the units a rollback fenced. */
  function BaselineStarts(j: Journal, units: seq<Unit>): seq<Step> {
    if units == [] then []
    else
      var u := units[|units| - 1];
      BaselineStarts(j, units[..|units| - 1]) + (if Fenced(j, u) then [StartUnit(u)] else [])
  }

  function Enables(units: seq<Unit>): seq<Step> {
    seq(|units|, i requires 0 <= i < |units| => EnableUnit(units[i]))
  }

  function Starts(units: seq<Unit>): seq<Step> {
    seq(|units|, i requires 0 <= i < |units| => StartUnit(units[i]))
  }

  function CommitStarts(j: Journal): seq<Step> {
    if j.enable == [] then [] else Starts(j.start)
  }

  /** A snapshot cleanup that completed, or that failed after some removals and was deferred. */
  datatype Cleanup = Cleaned | Deferred(removed: set<BackupId>)

  function Forget(ids: set<BackupId>, c: Cleanup): seq<Step> {
    match c
    case Cleaned => if ids == {} then [] else [DropBackups(ids), SyncStateRoot]
    case Deferred(removed) => if removed * ids == {} then [] else [DropBackups(removed * ids)]
  }

  /** _prune_releases. */
  function Prune(f: Files): seq<Step> {
    if f.releases <= Retained(f) then [] else [DropReleases(f.releases - Retained(f)), SyncReleases]
  }

  function Own(f: Files, id: TxId): set<BackupId> {
    set b | b in f.backups && b.tx == id
  }

  function Orphans(f: Files, id: TxId): set<BackupId> {
    set b | b in f.backups && b.tx != id
  }

  /** Retirement of the terminal journal `j`, then the cleanups, over the files `f`. */
  function Finish(f: Files, j: Journal, own: Cleanup, orphans: Cleanup): seq<Step> {
    (if j.retired then [] else Log(Retire(j))) + Forget(Own(f, j.id), own) + Forget(Orphans(f, j.id), orphans) + Prune(f)
  }

  function Quiesce(j: Journal): seq<Step> {
    if EffectivePlan(j) == [] then []
    else Log(j.(phase := StoppingConsumers))
         + [StopUnits(EffectivePlan(j), ManagedDaemonPlan(j) && j.daemonStarted)]
         + Log(j.(phase := ConsumersStopped))
  }

  /** Both selectors back, `current` first. */
  function Unselect(f: Files, j: Journal): seq<Step> {
    Log(j.(phase := RollingBackCurrent)) + Pick(f, Current, j.currentBefore)
    + Log(j.(phase := RollingBackPrevious)) + Pick(f, Previous, j.previousBefore)
  }

  function RestoreBoundary(j: Journal): seq<Step> {
    if !NativeRestorePlanned(j) then []
    else Log(j.(phase := RestoringNative)) + UseHelper(j.native) + Log(j.(phase := NativeRestored))
  }

  /** _restore_native_boundary. */
  function UseHelper(native: Option<NativeRecord>): seq<Step> {
    if native.Some? then [RestoreNative(native.value)] else []
  }

  function RestoreHosts(j: Journal): seq<Step> {
    if !HostRestorePlanned(j) then []
    else Log(j.(phase := RestoringHost)) + Restores(j.hostArtifacts) + Log(j.(phase := HostRestored))
  }

  /** Everything up to the record that ends a rollback. */
  function Rewind(f: Files, j: Journal): seq<Step> {
    Quiesce(j) + Unselect(f, j) + RestoreBoundary(j) + RestoreHosts(j)
  }

  function Rollback(f: Files, j: Journal, own: Cleanup, orphans: Cleanup): seq<Step> {
    if j.activeBefore != [] then
      Rewind(f, j) + Log(StartingRecord(j)) + BaselineStarts(StartingRecord(j), j.activeBefore)
    else
      Rewind(f, j) + Log(RollbackRecord(j)) + Finish(Undone(f, j), RollbackRecord(j), own, orphans)
  }

  function Finalization(f: Files, j: Journal, own: Cleanup, orphans: Cleanup): seq<Step> {
    Enables(j.enable) + CommitStarts(j) + Log(CommitRecord(j)) + Finish(f, CommitRecord(j), own, orphans)
  }

  /** _reconcile_locked. */
  function Script(f: Files, own: Cleanup, orphans: Cleanup): seq<Step> {
    match f.journal
    case None => Forget(f.backups.Keys, orphans) + Prune(f)
    case Some(j) =>
      if j.phase.Finalizing? then Finalization(f, j, own, orphans)
      else if j.phase.StartingBaseline? then BaselineStarts(j, j.activeBefore)
      else if Terminal(j.phase) then Finish(f, j, own, orphans)
      else if !j.armed then Log(UnarmedRollback(j)) + Finish(f, UnarmedRollback(j), own, orphans)
      else Rollback(f, j, own, orphans)
  }

  // ---- where a reconcile may start ----

  /** Recovery may start here although a killed process left writes that were never fsynced. */
  predicate Resumable(w: World) {
    w.vis.journal.Some? ==>
      var j := w.vis.journal.value;
      && (j.phase.Finalizing? && j.enable != [] ==> w.dur.journal == Some(j))
      && (j.retired && w.dur.journal != Some(j) ==> CleanupHarmless(w) && Abstract(w.dur) == Abstract(w.vis))
      && (RollbackEntry(j) ==> !Stranded(w, j))
  }

  /** The journals from which activate and commit go forward are always resumable. */
  lemma ForwardIsResumable(w: World, j: Journal)
    requires Inv(w) && w.vis.journal == Some(j) && (j.phase.Prepared? || j.phase.Activated?)
    ensures Resumable(w)
  {
    hide Inv;
    InvHasAllowlist(w);
    FixedIsSynced(w, j);
    SelectorsOfJournal(w.vis, j);
  }

  // ---- runs, joined ----

  lemma {:induction false} LegalJoin(w: World, a: seq<Step>, b: seq<Step>)
    requires Legal(w, a) && Legal(After(w, a), b)
    ensures Legal(w, a + b) && After(w, a + b) == After(After(w, a), b)
  {
    hide Allowed;
    if b == [] {
      assert a + b == a;
    } else {
      var front := Front(b);
      LegalJoin(w, a, front);
      assert a + b == (a + front) + [Last(b)];
      AfterOneMore(w, a + front, Last(b));
    }
  }

  lemma LegalNothing(w: World)
    ensures Legal(w, []) && After(w, []) == w
  {
  }

  lemma LegalOne(w: World, s: Step)
    requires Allowed(w, s) && Attested([], s)
    ensures Legal(w, [s]) && After(w, [s]) == Do(w, s)
  {
    AfterOneMore(w, [], s);
    assert [] + [s] == [s];
  }

  lemma LegalTwo(w: World, s: Step, t: Step)
    requires Allowed(w, s) && Allowed(Do(w, s), t) && Attested([], s) && Attested([s], t)
    ensures Legal(w, [s, t]) && After(w, [s, t]) == Do(Do(w, s), t)
  {
    LegalOne(w, s);
    AfterOneMore(w, [s], t);
    assert [s] + [t] == [s, t];
  }

  lemma {:induction false} LegalPrefix(w: World, steps: seq<Step>, k: nat)
    requires Legal(w, steps) && k <= |steps|
    ensures Legal(w, steps[..k])
  {
    hide Allowed;
    if k < |steps| {
      LegalPrefix(w, Front(steps), k);
      assert Front(steps)[..k] == steps[..k];
    } else {
      assert steps[..k] == steps;
    }
  }

  // ---- segments ----

  function Logged(w: World, n: Journal): World {
    w.(vis := w.vis.(journal := Some(n)), dur := w.dur.(journal := Some(n)))
  }

  lemma LogIsLegal(w: World, j: Journal, n: Journal)
    requires Inv(w) && w.vis.journal == Some(j) && Advances(w.vis, j, n) && Advances(w.dur, j, n)
    requires UnitEvidence(w, n) && (HandsOver(n) ==> JournalSynced(w)) && !Reports(n)
    ensures Legal(w, Log(n)) && After(w, Log(n)) == Logged(w, n) && Inv(Logged(w, n))
  {
    hide Good, Moves, Advances, Image, InStep, Inv;
    InvHasAllowlist(w);
    AdvanceEverywhere(w, j, n);
    assert Allowed(Do(w, PutJournal(n)), SyncState);
    LegalTwo(w, PutJournal(n), SyncState);
    StepKeepsInv(w, PutJournal(n));
    StepKeepsInv(Do(w, PutJournal(n)), SyncState);
  }

  lemma InvHasAllowlist(w: World)
    requires Inv(w)
    ensures w.vis.allowlist == w.dur.allowlist && Good(w.vis) && Good(w.dur) && InStep(w)
  {
    assert Image(w, w.vis) && Image(w, w.dur);
  }

  lemma UndoLogIsLegal(w: World, j: Journal, n: Journal)
    requires Inv(w) && w.vis.journal == Some(j) && Undoes(w.vis, j, n) && Undoes(w.dur, j, n) && !Reports(n)
    ensures Legal(w, Log(n)) && After(w, Log(n)) == Logged(w, n) && Inv(Logged(w, n)) && JournalSynced(Logged(w, n))
  {
    hide Good, Moves, Advances, Image, InStep, Inv, Undoes, Legal, After;
    InvHasAllowlist(w);
    UndoAdvances(w.vis, j, n);
    UndoAdvances(w.dur, j, n);
    UndoIsBackward(w.vis, j, n);
    LogIsLegal(w, j, n);
  }

  /** An operation outside the files, then the record that reports it. */
  lemma ReportIsLegal(w: World, s: Step, j: Journal, n: Journal)
    requires Inv(w) && Allowed(w, s) && (s.StopUnits? || s.RestoreNative?)
    requires w.vis.journal == Some(j) && Undoes(w.vis, j, n) && Undoes(w.dur, j, n) && Attested([s], PutJournal(n))
    ensures Legal(w, [s] + Log(n)) && After(w, [s] + Log(n)) == Logged(Do(w, s), n)
    ensures Inv(Logged(Do(w, s), n)) && JournalSynced(Logged(Do(w, s), n))
  {
    hide Good, Moves, Advances, Image, InStep, Inv, Undoes, Legal, After, Allowed;
    var x := Do(w, s);
    StepKeepsInv(w, s);
    InvHasAllowlist(x);
    UndoAdvances(x.vis, j, n);
    UndoAdvances(x.dur, j, n);
    UndoIsBackward(x.vis, j, n);
    AdvanceEverywhere(x, j, n);
    LegalTwo(w, s, PutJournal(n));
    StepKeepsInv(x, PutJournal(n));
    var y := Do(x, PutJournal(n));
    SyncIsRecovery(y, SyncState);
    AfterOneMore(w, [s, PutJournal(n)], SyncState);
    StepKeepsInv(y, SyncState);
    assert [s] + Log(n) == [s, PutJournal(n)] + [SyncState];
  }

  function Picked(w: World, slot: Slot, d: Option<Digest>): World {
    if d.None? && Slotted(w.vis, slot).None? then w
    else
      var f := Select(w.vis, slot, d);
      w.(vis := f, dur := w.dur.(current := f.current, previous := f.previous))
  }

  lemma PickIsLegal(w: World, slot: Slot, d: Option<Digest>)
    requires Inv(w) && JournalSynced(w) && MaySelect(w.vis, slot, d)
    ensures Legal(w, Pick(w.vis, slot, d)) && After(w, Pick(w.vis, slot, d)) == Picked(w, slot, d)
    ensures Inv(Picked(w, slot, d))
  {
    hide Good, Image, InStep, Inv, MaySelect;
    if Pick(w.vis, slot, d) != [] {
      MaySelectEverywhere(w, slot, d);
      assert Allowed(Do(w, PutSelector(slot, d)), SyncInstall);
      LegalTwo(w, PutSelector(slot, d), SyncInstall);
      StepKeepsInv(w, PutSelector(slot, d));
      StepKeepsInv(Do(w, PutSelector(slot, d)), SyncInstall);
    }
  }

  // ---- the armed rollback ----

  function Quiesced(w: World, j: Journal): World {
    if EffectivePlan(j) == [] then w
    else Logged(w, j.(phase := ConsumersStopped)).(active := w.active - UnitSet(EffectivePlan(j)),
                                                   ready := w.ready - UnitSet(EffectivePlan(j)))
  }

  /** Both records of the stop follow from either disk. */
  lemma QuiesceSteps(w: World, j: Journal)
    requires w.vis.journal == Some(j) && RollbackEntry(j) && EffectivePlan(j) != []
    ensures var stopping, stopped := j.(phase := StoppingConsumers), j.(phase := ConsumersStopped);
            && Undoes(w.vis, j, stopping) && Undoes(w.dur, j, stopping)
            && (forall f :: Undoes(f, stopping, stopped)) && EffectivePlan(stopping) == EffectivePlan(j)
            && Quiesced(w, j) == Logged(Logged(w, stopping).(active := w.active - UnitSet(EffectivePlan(stopping)),
                                                             ready := w.ready - UnitSet(EffectivePlan(stopping))), stopped)
  {
  }

  lemma QuiesceIsLegal(w: World, j: Journal)
    requires Inv(w) && w.vis.journal == Some(j) && RollbackEntry(j)
    ensures Legal(w, Quiesce(j)) && After(w, Quiesce(j)) == Quiesced(w, j) && Inv(Quiesced(w, j))
  {
    hide Good, Image, InStep, Inv, Undoes, Legal, After, Allowed, EffectivePlan, RollbackEntry;
    if EffectivePlan(j) == [] {
      LegalNothing(w);
    } else {
      var stopping, stopped := j.(phase := StoppingConsumers), j.(phase := ConsumersStopped);
      QuiesceSteps(w, j);
      UndoLogIsLegal(w, j, stopping);
      var w1 := Logged(w, stopping);
      var stop := StopUnits(EffectivePlan(stopping), ManagedDaemonPlan(stopping) && stopping.daemonStarted);
      MayAct(w1, stopping);
      ReportIsLegal(w1, stop, stopping, stopped);
      LegalJoin(w, Log(stopping), [stop] + Log(stopped));
      assert Quiesce(j) == Log(stopping) + ([stop] + Log(stopped));
      assert Logged(Do(w1, stop), stopped) == Quiesced(w, j);
    }
  }

  function Unselected(w: World, j: Journal): World {
    Logged(w, j.(phase := RollingBackPrevious)).(
      vis := w.vis.(journal := Some(j.(phase := RollingBackPrevious)), current := j.currentBefore, previous := j.previousBefore),
      dur := w.dur.(journal := Some(j.(phase := RollingBackPrevious)), current := j.currentBefore, previous := j.previousBefore))
  }

  /** A lost removal of `previous` implies a baseline `current`, whose replacement makes the removal durable. */
  lemma LostPreviousHasCurrent(w: World, j: Journal)
    requires Inv(w) && w.vis.journal == Some(j) && Undoable(j.phase)
    requires j.previousBefore.None? && w.vis.previous.None? && w.dur.previous.Some?
    ensures j.currentBefore.Some?
  {
    var f := w.vis.(previous := w.dur.previous);
    assert Image(w, f) && PhaseAdmits(j, f.current, f.previous);
  }

  function CurrentBack(w: World, j: Journal): World {
    Logged(Picked(Logged(w, j.(phase := RollingBackCurrent)), Current, j.currentBefore), j.(phase := RollingBackPrevious))
  }

  /** The way back begins on both disks, and goes on once `current` is back. */
  lemma CurrentBackSteps(w: World, j: Journal)
    requires Inv(w) && w.vis.journal == Some(j) && !Stranded(w, j) && Undoable(j.phase)
    requires j.phase.ConsumersStopped? || (RollbackEntry(j) && EffectivePlan(j) == [])
    ensures var rolling, next := j.(phase := RollingBackCurrent), j.(phase := RollingBackPrevious);
            var x := Picked(Logged(w, rolling), Current, j.currentBefore);
            && Undoes(w.vis, j, rolling) && Undoes(w.dur, j, rolling)
            && x.vis.journal == Some(rolling) && Undoes(x.vis, rolling, next) && Undoes(x.dur, rolling, next)
            && Logged(x, next) == CurrentBack(w, j)
            && MaySelect(w.vis.(journal := Some(rolling)), Current, j.currentBefore)
  {
    hide Inv, EffectivePlan;
    BaselineIsSelectable(w, j);
  }

  lemma EntryIsUndoable(j: Journal)
    ensures j.phase.ConsumersStopped? || RollbackEntry(j) ==> Undoable(j.phase)
  {
  }

  lemma CurrentBackIsLegal(w: World, j: Journal)
    requires Inv(w) && w.vis.journal == Some(j) && !Stranded(w, j)
    requires j.phase.ConsumersStopped? || (RollbackEntry(j) && EffectivePlan(j) == [])
    ensures var a := Log(j.(phase := RollingBackCurrent)) + Pick(w.vis, Current, j.currentBefore)
                     + Log(j.(phase := RollingBackPrevious));
            Legal(w, a) && After(w, a) == CurrentBack(w, j)
    ensures Inv(CurrentBack(w, j)) && JournalSynced(CurrentBack(w, j))
  {
    hide Good, Image, InStep, Inv, Undoes, Legal, After, Allowed, Stranded, RollbackEntry, MaySelect, EffectivePlan, Log;
    var rbc, rbp := j.(phase := RollingBackCurrent), j.(phase := RollingBackPrevious);
    EntryIsUndoable(j);
    CurrentBackSteps(w, j);
    UndoLogIsLegal(w, j, rbc);
    var w1 := Logged(w, rbc);
    PickIsLegal(w1, Current, j.currentBefore);
    var w2 := Picked(w1, Current, j.currentBefore);
    LegalJoin(w, Log(rbc), Pick(w.vis, Current, j.currentBefore));
    UndoLogIsLegal(w2, rbc, rbp);
    LegalJoin(w, Log(rbc) + Pick(w.vis, Current, j.currentBefore), Log(rbp));
  }

  lemma UnselectIsLegal(w: World, j: Journal)
    requires Inv(w) && w.vis.journal == Some(j) && !Stranded(w, j)
    requires j.phase.ConsumersStopped? || (RollbackEntry(j) && EffectivePlan(j) == [])
    ensures Legal(w, Unselect(w.vis, j)) && After(w, Unselect(w.vis, j)) == Unselected(w, j) && Inv(Unselected(w, j))
  {
    hide Good, Image, InStep, Inv, Legal, After, Allowed, CurrentBack;
    CurrentBackIsLegal(w, j);
    BothAreBack(w, j);
    var w3 := CurrentBack(w, j);
    PickIsLegal(w3, Previous, j.previousBefore);
    LegalJoin(w, Log(j.(phase := RollingBackCurrent)) + Pick(w.vis, Current, j.currentBefore)
                 + Log(j.(phase := RollingBackPrevious)), Pick(w.vis, Previous, j.previousBefore));
  }

  lemma BothAreBack(w: World, j: Journal)
    requires Inv(w) && w.vis.journal == Some(j) && !Stranded(w, j) && Undoable(j.phase)
    ensures Picked(CurrentBack(w, j), Previous, j.previousBefore) == Unselected(w, j)
    ensures CurrentBack(w, j).vis.journal == Some(j.(phase := RollingBackPrevious))
    ensures CurrentBack(w, j).vis.previous == w.vis.previous
  {
    hide Inv;
    BaselineIsSelectable(w, j);
  }

  lemma BaselineIsSelectable(w: World, j: Journal)
    requires Inv(w) && w.vis.journal == Some(j) && Undoable(j.phase)
    ensures j.previousBefore.None? && w.vis.previous.None? ==> w.dur.previous.None? || j.currentBefore.Some?
    ensures j.currentBefore.None? && w.vis.current.None? && w.dur.current.Some? && !Stranded(w, j) ==> Returns(j)
  {
    if j.previousBefore.None? && w.vis.previous.None? && w.dur.previous.Some? {
      LostPreviousHasCurrent(w, j);
    }
  }

  lemma RestoreBoundaryIsLegal(w: World, j: Journal)
    requires Inv(w) && Settled(w) && w.vis.journal == Some(j) && j.phase.RollingBackPrevious?
    requires AtBaseline(j, w.vis.current, w.vis.previous) && NativeRestorePlanned(j)
    ensures Legal(w, RestoreBoundary(j)) && After(w, RestoreBoundary(j)) == Logged(w, j.(phase := NativeRestored))
    ensures Inv(Logged(w, j.(phase := NativeRestored)))
  {
    hide Good, Image, InStep, Inv, Undoes, Legal, After, Allowed;
    var restoring := j.(phase := RestoringNative);
    UndoSteps(w.vis, j);
    UndoSteps(w.dur, j);
    UndoLogIsLegal(w, j, restoring);
    var w1 := Logged(w, restoring);
    UndoSteps(w1.vis, restoring);
    UndoSteps(w1.dur, restoring);
    MayAct(w1, restoring);
    NativeIsThere(w, j);
    var step := RestoreNative(j.native.value);
    ReportIsLegal(w1, step, restoring, j.(phase := NativeRestored));
    LegalJoin(w, Log(restoring), [step] + Log(j.(phase := NativeRestored)));
    assert RestoreBoundary(j) == Log(restoring) + ([step] + Log(j.(phase := NativeRestored)));
  }

  /** A plan that owns the daemon has a boundary to restore. */
  lemma NativeIsThere(w: World, j: Journal)
    requires Inv(w) && w.vis.journal == Some(j) && NativeRestorePlanned(j) && j.phase.RollingBackPrevious?
    ensures j.native.Some?
  {
    InvHasAllowlist(w);
    assert Accepts(w.vis.allowlist, w.vis.backups, j);
  }

  function Hosted(w: World, records: seq<HostRecord>): World {
    w.(vis := w.vis.(host := RestoreAll(w.vis.host, records)), dur := w.dur.(host := RestoreAll(w.dur.host, records)))
  }

  lemma {:induction false} RestoresAreLegal(w: World, j: Journal, records: seq<HostRecord>)
    requires Inv(w) && JournalSynced(w) && w.vis.journal == Some(j) && j.phase.RestoringHost?
    requires forall r :: r in records ==> r in j.hostArtifacts
    ensures Legal(w, Restores(records)) && After(w, Restores(records)) == Hosted(w, records) && Inv(Hosted(w, records))
  {
    hide Good, Image, InStep, Inv, Allowed, Recorded;
    if records != [] {
      var init, r := records[..|records| - 1], records[|records| - 1];
      RestoresAreLegal(w, j, init);
      var w1 := Hosted(w, init);
      MayAct(w1, j);
      SyncIsRecovery(Do(w1, RestoreHost(r)), SyncHost(r.path));
      LegalTwo(w1, RestoreHost(r), SyncHost(r.path));
      StepKeepsInv(w1, RestoreHost(r));
      StepKeepsInv(Do(w1, RestoreHost(r)), SyncHost(r.path));
      LegalJoin(w, Restores(init), [RestoreHost(r), SyncHost(r.path)]);
    }
  }

  lemma RestoreHostsIsLegal(w: World, j: Journal)
    requires Inv(w) && Settled(w) && w.vis.journal == Some(j) && HostRestorePlanned(j)
    requires j.phase.NativeRestored?
             || (j.phase.RollingBackPrevious? && !NativeRestorePlanned(j) && AtBaseline(j, w.vis.current, w.vis.previous))
    ensures Legal(w, RestoreHosts(j))
    ensures After(w, RestoreHosts(j)) == Hosted(Logged(w, j.(phase := HostRestored)), j.hostArtifacts)
    ensures Inv(Hosted(Logged(w, j.(phase := HostRestored)), j.hostArtifacts))
  {
    hide Good, Image, InStep, Inv, Undoes, Legal, After, Allowed, HostMatches;
    var restoring, restored := j.(phase := RestoringHost), j.(phase := HostRestored);
    UniqueRecords(w, j);
    UndoSteps(w.vis, j);
    UndoSteps(w.dur, j);
    UndoLogIsLegal(w, j, restoring);
    var w1 := Logged(w, restoring);
    RestoresAreLegal(w1, restoring, j.hostArtifacts);
    LegalJoin(w, Log(restoring), Restores(j.hostArtifacts));
    var w2 := Hosted(w1, j.hostArtifacts);
    RestoreAllAt(w.vis.host, j.hostArtifacts);
    RestoreAllAt(w.dur.host, j.hostArtifacts);
    UndoSteps(w2.vis, restoring);
    UndoSteps(w2.dur, restoring);
    UndoLogIsLegal(w2, restoring, restored);
    LegalJoin(w, Log(restoring) + Restores(j.hostArtifacts), Log(restored));
  }

  lemma UniqueRecords(w: World, j: Journal)
    requires Inv(w) && w.vis.journal == Some(j)
    ensures PathsUnique(j.hostArtifacts)
  {
    InvHasAllowlist(w);
    AcceptedPathsUnique(w.vis, j);
  }

  /** The record under which everything is back. */
  function Restored(j: Journal): Journal {
    j.(phase := if HostRestorePlanned(j) then HostRestored else RollingBackPrevious)
  }

  lemma RestorationIsLegal(w: World, j: Journal)
    requires Inv(w) && Settled(w) && w.vis.journal == Some(j) && j.phase.RollingBackPrevious?
    requires AtBaseline(j, w.vis.current, w.vis.previous)
    ensures var a, x := RestoreBoundary(j) + RestoreHosts(j), After(w, RestoreBoundary(j) + RestoreHosts(j));
            && Legal(w, a) && Inv(x) && Settled(x)
            && x.vis == Undone(w.vis, j).(journal := Some(Restored(j)))
            && RestorationDone(x.vis, Restored(j))
  {
    hide Good, Image, InStep, Inv, Undoes, Legal, After, Allowed, HostMatches;
    LegalNothing(w);
    var w1 := w;
    if NativeRestorePlanned(j) {
      RestoreBoundaryIsLegal(w, j);
      w1 := Logged(w, j.(phase := NativeRestored));
    }
    if HostRestorePlanned(j) {
      var t := w1.vis.journal.value;
      RestoreHostsIsLegal(w1, t);
      assert RestoreHosts(t) == RestoreHosts(j);
      LegalJoin(w, RestoreBoundary(j), RestoreHosts(j));
    } else {
      assert RestoreBoundary(j) + RestoreHosts(j) == [];
    }
  }

  lemma RewindIsLegal(w: World, j: Journal)
    requires Inv(w) && w.vis.journal == Some(j) && RollbackEntry(j) && !Stranded(w, j)
    ensures var x := After(w, Rewind(w.vis, j));
            && Legal(w, Rewind(w.vis, j)) && Inv(x) && Settled(x)
            && x.vis == Undone(w.vis, j).(journal := Some(Restored(j)))
            && RestorationDone(x.vis, Restored(j))
  {
    hide Good, Image, InStep, Inv, Undoes, Legal, After, Allowed, HostMatches, RestorationDone, Unselect, RestoreBoundary,
         RestoreHosts, Quiesce, Undone, Restored, EffectivePlan, ManagedDaemonPlan, Quiesced, Unselected, Stranded, RollbackEntry,
         Settled;
    RewindSteps(w, j);
    QuiesceIsLegal(w, j);
    var w1 := Quiesced(w, j);
    var t := w1.vis.journal.value;
    UnselectIsLegal(w1, t);
    SameUnselect(w.vis, j, w1.vis, t);
    LegalJoin(w, Quiesce(j), Unselect(w.vis, j));
    var w2 := Unselected(w1, t);
    var rbp := j.(phase := RollingBackPrevious);
    RestorationIsLegal(w2, rbp);
    SameRestoration(j, rbp);
    LegalJoin(w, Quiesce(j) + Unselect(w.vis, j), RestoreBoundary(j) + RestoreHosts(j));
    assert Rewind(w.vis, j) == Quiesce(j) + Unselect(w.vis, j) + (RestoreBoundary(j) + RestoreHosts(j));
    SameUndone(w.vis, j, w2.vis, rbp);
  }

  /** Where the way back stands after the stop, and after both selectors. */
  lemma RewindSteps(w: World, j: Journal)
    requires Inv(w) && w.vis.journal == Some(j) && RollbackEntry(j) && !Stranded(w, j)
    ensures var w1 := Quiesced(w, j);
            && w1.vis.journal.Some? && w1.vis == w.vis.(journal := w1.vis.journal)
            && var t := w1.vis.journal.value;
               && t == j.(phase := t.phase) && !Stranded(w1, t)
               && (t.phase.ConsumersStopped? || (RollbackEntry(t) && EffectivePlan(t) == []))
               && var w2, rbp := Unselected(w1, t), j.(phase := RollingBackPrevious);
                  && Settled(w2) && w2.vis.journal == Some(rbp) && AtBaseline(rbp, w2.vis.current, w2.vis.previous)
                  && w2.vis == w.vis.(journal := w2.vis.journal, current := w2.vis.current, previous := w2.vis.previous)
                  && w2.vis.current == j.currentBefore && w2.vis.previous == j.previousBefore
  {
    hide Good, Image, InStep, EffectivePlan;
  }

  lemma SameUnselect(f: Files, j: Journal, g: Files, t: Journal)
    requires t == j.(phase := t.phase) && g.current == f.current && g.previous == f.previous
    ensures Unselect(g, t) == Unselect(f, j)
  {
  }

  lemma SameRestoration(j: Journal, t: Journal)
    requires t == j.(phase := t.phase)
    ensures RestoreBoundary(t) == RestoreBoundary(j) && RestoreHosts(t) == RestoreHosts(j) && Restored(t) == Restored(j)
  {
  }

  lemma SameUndone(f: Files, j: Journal, g: Files, t: Journal)
    requires t == j.(phase := t.phase)
    requires g == f.(journal := g.journal, current := g.current, previous := g.previous)
    ensures Undone(g, t).(journal := None) == Undone(f, j).(journal := None)
  {
  }

  // ---- cleanup ----

  predicate Quiet(f: Files) {
    f.journal.Some? ==> Terminal(f.journal.value.phase) && Compact(f.journal.value)
  }

  /** A durable quiet journal needs nothing that the cleanup removes. */
  lemma QuietIsHarmless(w: World)
    requires Inv(w) && JournalSynced(w) && Quiet(w.vis)
    ensures CleanupHarmless(w)
  {
    InvHasAllowlist(w);
    CompactForgetsAll(w.dur);
    QuietIsSynced(w);
    QuiescentNeeds(w.dur);
  }

  lemma QuietIsSynced(w: World)
    requires Inv(w) && Quiet(w.vis)
    ensures SelectorsSynced(w)
  {
    if w.vis.journal.Some? {
      FixedIsSynced(w, w.vis.journal.value);
    }
  }

  /** What a cleanup changes: some backups go, and with an fsync the journal becomes durable. */
  predicate CleanedUp(w: World, x: World) {
    && x.vis == w.vis.(backups := x.vis.backups) && x.vis.backups.Keys <= w.vis.backups.Keys
    && x.dur == w.dur.(backups := x.dur.backups, journal := x.dur.journal)
    && (x.dur.journal == w.dur.journal || x.dur.journal == w.vis.journal)
  }

  lemma ForgetIsLegal(w: World, ids: set<BackupId>, c: Cleanup)
    requires Inv(w) && forall id :: id in ids ==> MayForget(w.vis, id) && MayForget(w.dur, id)
    ensures var x := After(w, Forget(ids, c)); Legal(w, Forget(ids, c)) && Inv(x) && CleanedUp(w, x)
  {
    hide Good, Image, InStep, Inv, Allowed, MayForget;
    LegalNothing(w);
    var dropped := match c case Cleaned => ids case Deferred(removed) => removed * ids;
    if dropped != {} {
      MayForgetEverywhere(w, dropped);
      LegalOne(w, DropBackups(dropped));
      StepKeepsInv(w, DropBackups(dropped));
      var w1 := Do(w, DropBackups(dropped));
      SyncIsRecovery(w1, SyncStateRoot);
      LegalTwo(w, DropBackups(dropped), SyncStateRoot);
      StepKeepsInv(w1, SyncStateRoot);
    }
  }

  lemma PruneIsLegal(w: World)
    requires Inv(w) && Quiet(w.vis) && CleanupHarmless(w)
    ensures Legal(w, Prune(w.vis)) && Inv(After(w, Prune(w.vis)))
  {
    hide Good, Image, InStep, Inv, Allowed, MayForget, Needed, Retained;
    LegalNothing(w);
    if Prune(w.vis) != [] {
      var ds := w.vis.releases - Retained(w.vis);
      InvHasAllowlist(w);
      QuietIsSynced(w);
      QuiescentNeeds(w.vis);
      forall d | d in ds ensures d !in Needed(w.vis) && d !in Needed(w.dur) {
        assert MayPrune(w.dur, d);
      }
      MayPruneEverywhere(w, ds);
      StepKeepsInv(w, DropReleases(ds));
      SyncIsRecovery(Do(w, DropReleases(ds)), SyncReleases);
      LegalTwo(w, DropReleases(ds), SyncReleases);
      StepKeepsInv(Do(w, DropReleases(ds)), SyncReleases);
    }
  }

  lemma HarmlessStays(w: World, x: World)
    requires Inv(x) && Quiet(w.vis) && CleanupHarmless(w) && CleanedUp(w, x)
    ensures CleanupHarmless(x) && Quiet(x.vis)
  {
    if x.dur.journal == w.vis.journal {
      InvHasAllowlist(x);
      QuietIsHarmless(x);
    } else {
      assert Needed(x.dur) == Needed(w.dur) && Retained(x.vis) == Retained(w.vis);
      forall id | id in x.vis.backups ensures MayForget(x.dur, id) {
        assert id in w.vis.backups && MayForget(w.dur, id);
      }
      forall d | d in x.vis.releases - Retained(x.vis) ensures MayPrune(x.dur, d) {
        assert d in w.vis.releases - Retained(w.vis) && MayPrune(w.dur, d);
      }
    }
  }

  lemma SweepIsLegal(w: World, own: set<BackupId>, orphans: set<BackupId>, c1: Cleanup, c2: Cleanup)
    requires Inv(w) && Quiet(w.vis) && CleanupHarmless(w)
    requires own <= w.vis.backups.Keys && orphans <= w.vis.backups.Keys
    ensures Legal(w, Forget(own, c1) + Forget(orphans, c2) + Prune(w.vis))
    ensures Inv(After(w, Forget(own, c1) + Forget(orphans, c2) + Prune(w.vis)))
  {
    hide Good, Image, InStep, Inv, Allowed, MayForget, MayPrune, Legal, After, Forget, Prune, Quiet;
    CompactForgets(w.vis);
    ForgetIsLegal(w, own, c1);
    var w1 := After(w, Forget(own, c1));
    HarmlessStays(w, w1);
    CompactForgets(w1.vis);
    ForgettableStays(w, w1, orphans);
    ForgetIsLegal(w1, orphans, c2);
    var w2 := After(w1, Forget(orphans, c2));
    HarmlessStays(w1, w2);
    LegalJoin(w, Forget(own, c1), Forget(orphans, c2));
    SamePrune(w.vis, w2.vis);
    PruneIsLegal(w2);
    LegalJoin(w, Forget(own, c1) + Forget(orphans, c2), Prune(w.vis));
  }

  lemma CompactForgets(f: Files)
    requires Quiet(f)
    ensures forall id :: MayForget(f, id)
  {
    CompactForgetsAll(f);
  }

  lemma ForgettableStays(w: World, x: World, ids: set<BackupId>)
    requires Quiet(w.vis) && CleanupHarmless(w) && CleanedUp(w, x) && ids <= w.vis.backups.Keys
    ensures forall id :: id in ids ==> MayForget(x.dur, id)
  {
    CompactForgets(w.vis);
    assert x.dur.journal == w.dur.journal ==> forall id :: id in ids ==> MayForget(w.dur, id);
  }

  lemma SamePrune(f: Files, g: Files)
    requires g == f.(backups := g.backups)
    ensures Prune(g) == Prune(f)
  {
  }

  lemma FinishIsLegal(w: World, j: Journal, c1: Cleanup, c2: Cleanup)
    requires Inv(w) && w.vis.journal == Some(j) && Terminal(j.phase)
    requires j.retired && w.dur.journal != Some(j) ==> CleanupHarmless(w)
    ensures Legal(w, Finish(w.vis, j, c1, c2)) && Inv(After(w, Finish(w.vis, j, c1, c2)))
  {
    hide Good, Image, InStep, Inv, Allowed, Legal, After, Forget, Prune, Advances, CleanupHarmless;
    var n := Retire(j);
    var own, orphans := Own(w.vis, j.id), Orphans(w.vis, j.id);
    InvHasAllowlist(w);
    var rest := Forget(own, c1) + Forget(orphans, c2) + Prune(w.vis);
    if j.retired {
      RetiredIsQuiet(w.vis, j);
      if w.dur.journal == Some(j) { QuietIsHarmless(w); }
      SweepIsLegal(w, own, orphans, c1, c2);
      assert Finish(w.vis, j, c1, c2) == rest;
    } else {
      ConclusionSteps(w.vis, j);
      ConclusionSteps(w.dur, j);
      LogIsLegal(w, j, n);
      var w1 := Logged(w, n);
      QuietIsHarmless(w1);
      SweepIsLegal(w1, own, orphans, c1, c2);
      SameReleases(w.vis, w1.vis);
      LegalJoin(w, Log(n), rest);
      assert Finish(w.vis, j, c1, c2) == Log(n) + rest;
    }
  }

  lemma RetiredIsQuiet(f: Files, j: Journal)
    requires Good(f) && f.journal == Some(j) && j.retired
    ensures Quiet(f)
  {
  }

  lemma SameReleases(f: Files, g: Files)
    requires g == f.(journal := g.journal)
    ensures Prune(g) == Prune(f)
  {
  }

  // ---- commit finalization ----

  lemma {:induction false} EnablesAreLegal(w: World, j: Journal, k: nat)
    requires Inv(w) && w.vis.journal == Some(j) && j.phase.Finalizing? && k <= |j.enable|
    requires k > 0 ==> JournalSynced(w)
    ensures var x := After(w, Enables(j.enable[..k]));
            && Legal(w, Enables(j.enable[..k])) && Inv(x)
            && x == w.(enabled := w.enabled + UnitSet(j.enable[..k]))
  {
    hide Good, Image, InStep, Inv, Allowed, Legal, After;
    if k == 0 {
      assert Enables(j.enable[..0]) == [];
      LegalNothing(w);
    } else {
      EnablesAreLegal(w, j, k - 1);
      var u := j.enable[k - 1];
      var w1 := After(w, Enables(j.enable[..k - 1]));
      MayAct(w1, j);
      assert u in j.enable;
      LegalOne(w1, EnableUnit(u));
      StepKeepsInv(w1, EnableUnit(u));
      LegalJoin(w, Enables(j.enable[..k - 1]), [EnableUnit(u)]);
      assert Enables(j.enable[..k]) == Enables(j.enable[..k - 1]) + [EnableUnit(u)];
      assert UnitSet(j.enable[..k]) == UnitSet(j.enable[..k - 1]) + {u};
    }
  }

  lemma {:induction false} CommitStartsAreLegal(w: World, j: Journal, starts: seq<Step>)
    requires Inv(w) && w.vis.journal == Some(j) && j.phase.Finalizing? && (starts != [] ==> JournalSynced(w))
    requires forall s :: s in starts ==> s.StartUnit? && s.unit in j.start
    ensures Legal(w, starts) && After(w, starts) == w
  {
    hide Good, Image, InStep, Inv, Allowed;
    if starts != [] {
      var last := starts[|starts| - 1];
      assert last in starts && last == StartUnit(last.unit) && Last(starts) == last;
      CommitStartsAreLegal(w, j, Front(starts));
      MayAct(w, j);
      LegalOne(w, Last(starts));
      LegalJoin(w, Front(starts), [Last(starts)]);
      assert starts == Front(starts) + [Last(starts)];
    }
  }

  lemma FinalizationIsLegal(w: World, j: Journal, c1: Cleanup, c2: Cleanup)
    requires Inv(w) && w.vis.journal == Some(j) && j.phase.Finalizing? && Resumable(w)
    ensures Legal(w, Finalization(w.vis, j, c1, c2))
  {
    hide Good, Image, InStep, Inv, Allowed, Legal, After, Advances, Finish;
    InvHasAllowlist(w);
    assert j.enable[..|j.enable|] == j.enable;
    EnablesAreLegal(w, j, |j.enable|);
    var w1 := After(w, Enables(j.enable));
    CommitStartsAreLegal(w1, j, CommitStarts(j));
    LegalJoin(w, Enables(j.enable), CommitStarts(j));
    var n := CommitRecord(j);
    ConclusionSteps(w1.vis, j);
    ConclusionSteps(w1.dur, j);
    LogIsLegal(w1, j, n);
    LegalJoin(w, Enables(j.enable) + CommitStarts(j), Log(n));
    FinishIsLegal(Logged(w1, n), n, c1, c2);
    SameFinish(w.vis, Logged(w1, n).vis, n, c1, c2);
    LegalJoin(w, Enables(j.enable) + CommitStarts(j) + Log(n), Finish(w.vis, n, c1, c2));
  }

  lemma SameFinish(f: Files, g: Files, j: Journal, c1: Cleanup, c2: Cleanup)
    requires g == f.(journal := g.journal)
    ensures Finish(g, j, c1, c2) == Finish(f, j, c1, c2)
  {
  }

  // ---- the whole reconcile ----

  lemma {:induction false} BaselineStartsAreLegal(w: World, j: Journal, units: seq<Unit>)
    requires Inv(w) && w.vis.journal == Some(j) && j.phase.StartingBaseline?
    ensures Legal(w, BaselineStarts(j, units)) && After(w, BaselineStarts(j, units)) == w
  {
    hide Good, Image, InStep, Inv;
    LegalNothing(w);
    if units != [] {
      var init, u := units[..|units| - 1], units[|units| - 1];
      BaselineStartsAreLegal(w, j, init);
      if Fenced(j, u) {
        LegalOne(w, StartUnit(u));
        LegalJoin(w, BaselineStarts(j, init), [StartUnit(u)]);
      } else {
        assert BaselineStarts(j, init) + [] == BaselineStarts(j, init);
      }
    }
  }

  lemma UnarmedIsLegal(w: World, j: Journal, c1: Cleanup, c2: Cleanup)
    requires Inv(w) && w.vis.journal == Some(j) && !j.armed && (j.phase.Staging? || j.phase.Prepared?)
    ensures Legal(w, Log(UnarmedRollback(j)) + Finish(w.vis, UnarmedRollback(j), c1, c2))
  {
    hide Good, Image, InStep, Inv, Allowed, Legal, After, Advances, Concludes, Finish;
    var n := UnarmedRollback(j);
    FixedIsSynced(w, j);
    ConclusionSteps(w.vis, j);
    ConclusionSteps(w.dur, j);
    ConclusionAdvances(w.vis, j, n);
    ConclusionAdvances(w.dur, j, n);
    LogIsLegal(w, j, n);
    FinishIsLegal(Logged(w, n), n, c1, c2);
    SameFinish(w.vis, Logged(w, n).vis, n, c1, c2);
    LegalJoin(w, Log(n), Finish(w.vis, n, c1, c2));
  }

  lemma SameRecords(j: Journal)
    ensures StartingRecord(Restored(j)) == StartingRecord(j) && RollbackRecord(Restored(j)) == RollbackRecord(j)
    ensures Restored(j).activeBefore == j.activeBefore
  {
  }

  lemma RollbackIsLegal(w: World, j: Journal, c1: Cleanup, c2: Cleanup)
    requires Inv(w) && w.vis.journal == Some(j) && RollbackEntry(j) && !Stranded(w, j)
    ensures Legal(w, Rollback(w.vis, j, c1, c2))
  {
    hide Good, Image, InStep, Inv, Allowed, Legal, After, Advances, Concludes, Finish, Rewind, RestorationDone;
    RewindIsLegal(w, j);
    SameRecords(j);
    var x, t := After(w, Rewind(w.vis, j)), Restored(j);
    ConclusionSteps(x.vis, t);
    if j.activeBefore != [] {
      var n := StartingRecord(j);
      ConclusionOnSettled(x, t, n);
      ConclusionAdvances(x.vis, t, n);
      ConclusionAdvances(x.dur, t, n);
      LogIsLegal(x, t, n);
      LegalJoin(w, Rewind(w.vis, j), Log(n));
      BaselineStartsAreLegal(Logged(x, n), n, j.activeBefore);
      LegalJoin(w, Rewind(w.vis, j) + Log(n), BaselineStarts(n, j.activeBefore));
    } else {
      var n := RollbackRecord(j);
      ConclusionOnSettled(x, t, n);
      ConclusionAdvances(x.vis, t, n);
      ConclusionAdvances(x.dur, t, n);
      LogIsLegal(x, t, n);
      LegalJoin(w, Rewind(w.vis, j), Log(n));
      FinishIsLegal(Logged(x, n), n, c1, c2);
      SameFinish(Undone(w.vis, j), Logged(x, n).vis, n, c1, c2);
      LegalJoin(w, Rewind(w.vis, j) + Log(n), Finish(Undone(w.vis, j), n, c1, c2));
    }
  }

  lemma NoJournalIsHarmless(w: World)
    requires Inv(w) && w.vis.journal.None?
    ensures CleanupHarmless(w)
  {
    InvHasAllowlist(w);
    QuietIsHarmless(w);
  }

  lemma LiveShape(w: World, j: Journal)
    requires Inv(w) && w.vis.journal == Some(j)
    ensures !j.armed && !Terminal(j.phase) && !j.phase.StartingBaseline? && !j.phase.Finalizing? ==>
              j.phase.Staging? || j.phase.Prepared?
    ensures j.armed && !j.phase.Finalizing? && !j.phase.StartingBaseline? ==> RollbackEntry(j)
  {
    InvHasAllowlist(w);
  }

  /** From a resumable world every write of the reconcile is justified in every crash image. */
  lemma ScriptIsLegal(w: World, c1: Cleanup, c2: Cleanup)
    requires Inv(w) && Resumable(w)
    ensures Legal(w, Script(w.vis, c1, c2))
  {
    hide Good, Image, InStep, Inv, Allowed, Legal, After, Finish, Rollback, Finalization, Forget, Prune;
    if w.vis.journal.None? {
      NoJournalIsHarmless(w);
      SweepIsLegal(w, {}, w.vis.backups.Keys, Cleaned, c2);
      NothingToForget();
      assert [] + Forget(w.vis.backups.Keys, c2) == Forget(w.vis.backups.Keys, c2);
    } else {
      var j := w.vis.journal.value;
      LiveShape(w, j);
      if j.phase.Finalizing? {
        FinalizationIsLegal(w, j, c1, c2);
      } else if j.phase.StartingBaseline? {
        BaselineStartsAreLegal(w, j, j.activeBefore);
      } else if Terminal(j.phase) {
        FinishIsLegal(w, j, c1, c2);
      } else if !j.armed {
        UnarmedIsLegal(w, j, c1, c2);
      } else {
        RollbackIsLegal(w, j, c1, c2);
      }
    }
  }

  lemma NothingToForget()
    ensures Forget({}, Cleaned) == []
  {
  }

  // ---- what the reconcile makes of the visible files, resumable or not ----

  lemma {:induction false} AfterJoin(w: World, a: seq<Step>, b: seq<Step>)
    ensures After(w, a + b) == After(After(w, a), b)
  {
    if b == [] {
      assert a + b == a;
    } else {
      assert Front(a + b) == a + Front(b);
      AfterJoin(w, a, Front(b));
    }
  }

  lemma AfterOne(w: World, s: Step)
    ensures After(w, [s]) == Do(w, s)
  {
    assert Front([s]) == [];
  }

  lemma AfterTwo(w: World, s: Step, t: Step)
    ensures After(w, [s, t]) == Do(Do(w, s), t)
  {
    assert Front([s, t]) == [s];
    AfterOne(w, s);
  }

  lemma LogSeen(w: World, n: Journal)
    ensures After(w, Log(n)).vis == w.vis.(journal := Some(n))
  {
    AfterTwo(w, PutJournal(n), SyncState);
  }

  lemma PickSeen(w: World, f: Files, slot: Slot, d: Option<Digest>)
    requires Slotted(f, slot) == Slotted(w.vis, slot)
    ensures After(w, Pick(f, slot, d)).vis == Select(w.vis, slot, d)
  {
    AfterTwo(w, PutSelector(slot, d), SyncInstall);
  }

  predicate OnUnits(steps: seq<Step>) {
    forall i :: 0 <= i < |steps| ==> ActsOnUnits(steps[i])
  }

  lemma {:induction false} UnitsSeen(w: World, steps: seq<Step>)
    requires OnUnits(steps)
    ensures After(w, steps).vis == w.vis
  {
    if steps != [] {
      UnitsSeen(w, Front(steps));
    }
  }

  lemma {:induction false} BaselineStartsActOnUnits(j: Journal, units: seq<Unit>)
    ensures OnUnits(BaselineStarts(j, units))
  {
    if units != [] {
      BaselineStartsActOnUnits(j, units[..|units| - 1]);
    }
  }

  lemma {:induction false} RestoresSeen(w: World, records: seq<HostRecord>)
    ensures After(w, Restores(records)).vis == w.vis.(host := RestoreAll(w.vis.host, records))
  {
    hide Recorded;
    if records != [] {
      var init, r := records[..|records| - 1], records[|records| - 1];
      RestoresSeen(w, init);
      AfterJoin(w, Restores(init), [RestoreHost(r), SyncHost(r.path)]);
      AfterTwo(After(w, Restores(init)), RestoreHost(r), SyncHost(r.path));
    }
  }

  lemma ForgetSeen(w: World, ids: set<BackupId>)
    ensures After(w, Forget(ids, Cleaned)).vis == w.vis.(backups := w.vis.backups - ids)
  {
    if ids != {} {
      AfterTwo(w, DropBackups(ids), SyncStateRoot);
    }
  }

  lemma PruneSeen(w: World, f: Files)
    requires f.releases == w.vis.releases && Retained(f) == Retained(w.vis)
    ensures After(w, Prune(f)).vis == w.vis.(releases := w.vis.releases * Retained(w.vis))
  {
    if f.releases <= Retained(f) {
      assert w.vis.releases * Retained(w.vis) == w.vis.releases;
    } else {
      AfterTwo(w, DropReleases(f.releases - Retained(f)), SyncReleases);
      assert w.vis.releases - (f.releases - Retained(f)) == w.vis.releases * Retained(w.vis);
    }
  }

  lemma FinishSeen(w: World, f: Files, j: Journal)
    requires w.vis == f.(journal := Some(j)) && (j.retired ==> Retire(j) == j)
    ensures After(w, Finish(f, j, Cleaned, Cleaned)).vis == Swept(f.(journal := Some(Retire(j))))
  {
    hide After, Log, Forget, Prune, Retained, Own, Orphans;
    var own, orphans := Own(f, j.id), Orphans(f, j.id);
    var first := if j.retired then [] else Log(Retire(j));
    var w1 := After(w, first);
    LogSeen(w, Retire(j));
    NothingDone(w);
    ForgetSeen(w1, own);
    var w2 := After(w1, Forget(own, Cleaned));
    ForgetSeen(w2, orphans);
    var w3 := After(w2, Forget(orphans, Cleaned));
    SameRetained(f, w3.vis);
    SameRetained(f, f.(journal := Some(Retire(j))));
    PruneSeen(w3, f);
    AfterJoin(w, first, Forget(own, Cleaned));
    AfterJoin(w, first + Forget(own, Cleaned), Forget(orphans, Cleaned));
    AfterJoin(w, first + Forget(own, Cleaned) + Forget(orphans, Cleaned), Prune(f));
    OwnAndOrphans(f, j.id);
  }

  lemma NothingDone(w: World)
    ensures After(w, []) == w
  {
  }

  lemma SameRetained(f: Files, g: Files)
    requires g == f.(journal := g.journal, backups := g.backups)
    ensures Retained(g) == Retained(f)
  {
  }

  lemma OwnAndOrphans(f: Files, id: TxId)
    ensures f.backups - Own(f, id) - Orphans(f, id) == map[]
  {
  }

  lemma QuiesceSeen(w: World, j: Journal)
    ensures After(w, Quiesce(j)).vis == w.vis.(journal := After(w, Quiesce(j)).vis.journal)
  {
    hide After, Log, EffectivePlan, ManagedDaemonPlan;
    NothingDone(w);
    if EffectivePlan(j) != [] {
      var stop := StopUnits(EffectivePlan(j), ManagedDaemonPlan(j) && j.daemonStarted);
      var a, c := Log(j.(phase := StoppingConsumers)), Log(j.(phase := ConsumersStopped));
      LogSeen(w, j.(phase := StoppingConsumers));
      AfterJoin(w, a, [stop]);
      AfterOne(After(w, a), stop);
      AfterJoin(w, a + [stop], c);
      LogSeen(After(w, a + [stop]), j.(phase := ConsumersStopped));
    }
  }

  lemma UnselectSeen(w: World, f: Files, j: Journal)
    requires w.vis == f.(journal := w.vis.journal)
    ensures After(w, Unselect(f, j)).vis
            == f.(journal := Some(j.(phase := RollingBackPrevious)), current := j.currentBefore, previous := j.previousBefore)
  {
    hide After, Log, Pick;
    var a, c := Log(j.(phase := RollingBackCurrent)), Log(j.(phase := RollingBackPrevious));
    var b, d := Pick(f, Current, j.currentBefore), Pick(f, Previous, j.previousBefore);
    LogSeen(w, j.(phase := RollingBackCurrent));
    PickSeen(After(w, a), f, Current, j.currentBefore);
    AfterJoin(w, a, b);
    LogSeen(After(w, a + b), j.(phase := RollingBackPrevious));
    AfterJoin(w, a + b, c);
    PickSeen(After(w, a + b + c), f, Previous, j.previousBefore);
    AfterJoin(w, a + b + c, d);
  }

  lemma RestorationSeen(w: World, j: Journal)
    requires w.vis.journal == Some(j.(phase := RollingBackPrevious))
    ensures After(w, RestoreBoundary(j) + RestoreHosts(j)).vis
            == w.vis.(journal := Some(Restored(j)),
                      host := if HostRestorePlanned(j) then RestoreAll(w.vis.host, j.hostArtifacts) else w.vis.host)
  {
    hide After, Log, Restores, ManagedDaemonPlan;
    NothingDone(w);
    AfterJoin(w, RestoreBoundary(j), RestoreHosts(j));
    if NativeRestorePlanned(j) {
      var a, b := Log(j.(phase := RestoringNative)), UseHelper(j.native);
      LogSeen(w, j.(phase := RestoringNative));
      AfterJoin(w, a, b);
      HelperSeen(After(w, a), j.native);
      AfterJoin(w, a + b, Log(j.(phase := NativeRestored)));
      LogSeen(After(w, a + b), j.(phase := NativeRestored));
    }
    var x := After(w, RestoreBoundary(j));
    NothingDone(x);
    if HostRestorePlanned(j) {
      var a, b, c := Log(j.(phase := RestoringHost)), Restores(j.hostArtifacts), Log(j.(phase := HostRestored));
      LogSeen(x, j.(phase := RestoringHost));
      RestoresSeen(After(x, a), j.hostArtifacts);
      AfterJoin(x, a, b);
      LogSeen(After(x, a + b), j.(phase := HostRestored));
      AfterJoin(x, a + b, c);
    }
  }

  lemma HelperSeen(w: World, native: Option<NativeRecord>)
    ensures After(w, UseHelper(native)) == w
  {
    NothingDone(w);
    if native.Some? { AfterOne(w, RestoreNative(native.value)); }
  }

  lemma RewindSeen(w: World, f: Files, j: Journal)
    requires w.vis == f
    ensures After(w, Rewind(f, j)).vis == Undone(f, j).(journal := Some(Restored(j)))
  {
    hide After, Quiesce, Unselect, RestoreBoundary, RestoreHosts, HostRestorePlanned, RestoreAll, Restored;
    QuiesceSeen(w, j);
    UnselectSeen(After(w, Quiesce(j)), f, j);
    AfterJoin(w, Quiesce(j), Unselect(f, j));
    RestorationSeen(After(w, Quiesce(j) + Unselect(f, j)), j);
    AfterJoin(w, Quiesce(j) + Unselect(f, j), RestoreBoundary(j) + RestoreHosts(j));
    assert Rewind(f, j) == Quiesce(j) + Unselect(f, j) + (RestoreBoundary(j) + RestoreHosts(j));
  }

  lemma LoggedFinishSeen(w: World, f: Files, n: Journal)
    requires w.vis == f.(journal := w.vis.journal) && !n.retired
    ensures After(w, Log(n) + Finish(f, n, Cleaned, Cleaned)).vis == Swept(f.(journal := Some(Retire(n))))
  {
    hide After, Log, Finish, Swept, Retire;
    LogSeen(w, n);
    FinishSeen(After(w, Log(n)), f, n);
    AfterJoin(w, Log(n), Finish(f, n, Cleaned, Cleaned));
  }

  lemma RollbackSeen(w: World, f: Files, j: Journal)
    requires w.vis == f && f.journal == Some(j) && RollbackEntry(j) && !j.retired
    ensures After(w, Rollback(f, j, Cleaned, Cleaned)).vis == Outcome(f)
  {
    hide After, Log, Finish, Rewind, BaselineStarts, Outcome, Undone, Restored, Swept, Retire;
    var x := After(w, Rewind(f, j));
    RewindSeen(w, f, j);
    OutcomeOfArmed(f, j);
    if j.activeBefore != [] {
      var n := StartingRecord(j);
      LogSeen(x, n);
      AfterJoin(w, Rewind(f, j), Log(n));
      BaselineStartsActOnUnits(n, j.activeBefore);
      UnitsSeen(After(x, Log(n)), BaselineStarts(n, j.activeBefore));
      AfterJoin(w, Rewind(f, j) + Log(n), BaselineStarts(n, j.activeBefore));
    } else {
      var n := RollbackRecord(j);
      LoggedFinishSeen(x, Undone(f, j), n);
      AfterJoin(w, Rewind(f, j), Log(n) + Finish(Undone(f, j), n, Cleaned, Cleaned));
      assert Rollback(f, j, Cleaned, Cleaned) == Rewind(f, j) + (Log(n) + Finish(Undone(f, j), n, Cleaned, Cleaned));
    }
  }

  lemma FinalizationSeen(w: World, f: Files, j: Journal)
    requires w.vis == f && f.journal == Some(j) && j.phase.Finalizing? && !j.retired
    ensures After(w, Finalization(f, j, Cleaned, Cleaned)).vis == Outcome(f)
  {
    hide After, Log, Finish, Outcome, Swept, Retire;
    var acts, n := Enables(j.enable) + CommitStarts(j), CommitRecord(j);
    UnitsSeen(w, acts);
    OutcomeOfCommit(f, j);
    LoggedFinishSeen(After(w, acts), f, n);
    AfterJoin(w, acts, Log(n) + Finish(f, n, Cleaned, Cleaned));
    assert Finalization(f, j, Cleaned, Cleaned) == acts + (Log(n) + Finish(f, n, Cleaned, Cleaned));
  }

  lemma UnjournaledSeen(w: World, f: Files)
    requires w.vis == f && f.journal.None?
    ensures After(w, Forget(f.backups.Keys, Cleaned) + Prune(f)).vis == Outcome(f)
  {
    hide After, Forget, Prune, Retained;
    ForgetSeen(w, f.backups.Keys);
    var x := After(w, Forget(f.backups.Keys, Cleaned));
    SameRetained(f, x.vis);
    PruneSeen(x, f);
    AfterJoin(w, Forget(f.backups.Keys, Cleaned), Prune(f));
    assert f.backups - f.backups.Keys == map[];
  }

  lemma JournalShape(f: Files, j: Journal)
    requires Good(f) && f.journal == Some(j)
    ensures j.retired ==> Terminal(j.phase) && Retire(j) == j
  {
  }

  /** One uninterrupted reconcile of any reachable deployment, however much of it was never fsynced, leaves the
      recovered disk: no journal, a retired terminal journal, or pending baseline starts, and nothing to do again. */
  lemma ScriptCompletes(w: World)
    requires Inv(w)
    ensures After(w, Script(w.vis, Cleaned, Cleaned)).vis == Outcome(w.vis)
    ensures Quiescent(Outcome(w.vis)) && Outcome(Outcome(w.vis)) == Outcome(w.vis)
  {
    hide After, Good, InStep, Inv, Finish, Rollback, Finalization, Outcome, Quiescent, Forget, Prune, Swept, Retire, Log,
         BaselineStarts;
    OutcomeIsQuiescent(w.vis);
    OutcomeIsIdempotent(w.vis);
    InvHasAllowlist(w);
    if w.vis.journal.None? {
      UnjournaledSeen(w, w.vis);
    } else {
      var f, j := w.vis, w.vis.journal.value;
      LiveShape(w, j);
      JournalShape(f, j);
      if j.phase.Finalizing? {
        FinalizationSeen(w, f, j);
      } else if j.phase.StartingBaseline? {
        BaselineStartsActOnUnits(j, j.activeBefore);
        UnitsSeen(w, BaselineStarts(j, j.activeBefore));
        PendingIsOutcome(f);
      } else if Terminal(j.phase) {
        OutcomeOfTerminal(f, j);
        FinishSeen(w, f, j);
      } else if !j.armed {
        OutcomeOfUnarmed(f, j);
        LoggedFinishSeen(w, f, UnarmedRollback(j));
      } else {
        RollbackSeen(w, f, j);
      }
    }
  }

  lemma PendingIsOutcome(f: Files)
    requires f.journal.Some? && f.journal.value.phase.StartingBaseline?
    ensures Outcome(f) == f
  {
  }
}
