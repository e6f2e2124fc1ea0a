/** What one uninterrupted reconcile makes of a disk image, and why no crash on the way changes it. */
module Recovery {
  import opened ReleaseTypes
  import opened JournalRules
  import opened Protocol
  import opened CrashModel

  /** Every recorded path put back, in journal order. */
  function RestoreAll(host: Host, records: seq<HostRecord>): Host {
    if records == [] then host
    else
      var r := records[|records| - 1];
      Replace(RestoreAll(host, records[..|records| - 1]), r.path, Recorded(r))
  }

  /** The terminal cleanup: only selected releases stay, and no backup at all. */
  function Swept(f: Files): Files {
    f.(releases := f.releases * Retained(f), backups := map[])
  }

  function Undone(f: Files, j: Journal): Files {
    f.(current := j.currentBefore, previous := j.previousBefore,
       host := if HostRestorePlanned(j) then RestoreAll(f.host, j.hostArtifacts) else f.host)
  }

  /** Journal, selectors and host after an uninterrupted reconcile, before the cleanup. */
  function Recovered(f: Files): Files {
    match f.journal
    case None => f
    case Some(j) =>
      if j.phase.Finalizing? then f.(journal := Some(Retire(CommitRecord(j))))
      else if Terminal(j.phase) then f.(journal := Some(Retire(j)))
      else if j.phase.StartingBaseline? then f
      else if !j.armed then f.(journal := Some(Retire(UnarmedRollback(j))))
      else if j.activeBefore != [] then Undone(f, j).(journal := Some(StartingRecord(j)))
      else Undone(f, j).(journal := Some(Retire(RollbackRecord(j))))
  }

  /** The disk an uninterrupted reconcile leaves. */
  function Outcome(f: Files): Files {
    var r := Recovered(f);
    if r.journal.Some? && r.journal.value.phase.StartingBaseline? then r else Swept(r)
  }

  /** `f` is the recovered disk `o`, up to garbage whose removal was deferred. */
  predicate Leaves(f: Files, o: Files) {
    && f == o.(releases := f.releases, backups := f.backups)
    && o.releases <= f.releases
  }

  lemma OutcomeOfUnjournaled(f: Files)
    requires f.journal.None?
    ensures Outcome(f) == Swept(f)
  {
  }

  lemma OutcomeOfCommit(f: Files, j: Journal)
    requires f.journal == Some(j) && j.phase.Finalizing?
    ensures Outcome(f) == Swept(f.(journal := Some(Retire(CommitRecord(j)))))
  {
  }

  lemma OutcomeOfTerminal(f: Files, j: Journal)
    requires f.journal == Some(j) && Terminal(j.phase)
    ensures Outcome(f) == Swept(f.(journal := Some(Retire(j))))
  {
  }

  lemma OutcomeOfUnarmed(f: Files, j: Journal)
    requires f.journal == Some(j) && !j.armed && (j.phase.Staging? || j.phase.Prepared?)
    ensures Outcome(f) == Swept(f.(journal := Some(Retire(UnarmedRollback(j)))))
  {
  }

  lemma OutcomeOfArmed(f: Files, j: Journal)
    requires f.journal == Some(j) && RollbackEntry(j)
    ensures Outcome(f) == if j.activeBefore != [] then Undone(f, j).(journal := Some(StartingRecord(j)))
                          else Swept(Undone(f, j).(journal := Some(Retire(RollbackRecord(j)))))
  {
  }

  // ---- restoration ----

  predicate PathsUnique(records: seq<HostRecord>) {
    forall i, k :: 0 <= i < k < |records| ==> records[i].path != records[k].path
  }

  predicate Names(records: seq<HostRecord>, p: HostPath) {
    exists i :: 0 <= i < |records| && records[i].path == p
  }

  lemma {:induction false} RestoreAllAt(host: Host, records: seq<HostRecord>)
    requires PathsUnique(records)
    ensures HostMatches(records, RestoreAll(host, records))
    ensures forall p :: !Names(records, p) ==> At(RestoreAll(host, records), p) == At(host, p)
  {
    if records != [] {
      var n := |records| - 1;
      var init := records[..n];
      RestoreAllAt(host, init);
      forall p | !Names(records, p) ensures At(RestoreAll(host, records), p) == At(host, p) {
        assert records[n].path != p;
        assert !Names(init, p) by {
          assert forall i :: 0 <= i < n ==> init[i] == records[i];
        }
      }
      forall i | 0 <= i < |records|
        ensures At(RestoreAll(host, records), records[i].path) == Recorded(records[i])
      {
        assert i < n ==> init[i] == records[i];
      }
    }
  }

  /** Restoration of one path, early or twice, changes nothing about the full restoration. */
  lemma RestoreOneFirst(host: Host, records: seq<HostRecord>, r: HostRecord)
    requires PathsUnique(records) && r in records
    ensures RestoreAll(Replace(host, r.path, Recorded(r)), records) == RestoreAll(host, records)
  {
    var h := Replace(host, r.path, Recorded(r));
    RestoreAllAt(host, records);
    RestoreAllAt(h, records);
    assert Names(records, r.path);
    forall p ensures At(RestoreAll(h, records), p) == At(RestoreAll(host, records), p) {
      if Names(records, p) {
        var i :| 0 <= i < |records| && records[i].path == p;
        assert At(RestoreAll(h, records), records[i].path) == Recorded(records[i]);
      }
    }
    SameHost(RestoreAll(h, records), RestoreAll(host, records));
  }

  lemma RestoreMatchedIsIdentity(host: Host, records: seq<HostRecord>)
    requires PathsUnique(records) && HostMatches(records, host)
    ensures RestoreAll(host, records) == host
  {
  }

  lemma AcceptedPathsUnique(f: Files, j: Journal)
    requires Unique(f.allowlist) && Accepts(f.allowlist, f.backups, j)
    ensures PathsUnique(j.hostArtifacts)
  {
  }

  // ---- the outcome is quiescent, good, and stable ----

  /** Nothing left for reconcile to do to the disk. */
  predicate Quiescent(f: Files) {
    match f.journal
    case None => Swept(f) == f
    case Some(j) => j.phase.StartingBaseline? || (Terminal(j.phase) && j.retired && Swept(f) == f)
  }

  lemma SweepTwice(f: Files)
    ensures Swept(Swept(f)) == Swept(f)
  {
  }

  lemma OutcomeIsQuiescent(f: Files)
    ensures Quiescent(Outcome(f))
  {
    match f.journal
    case None => SweepTwice(f);
    case Some(j) =>
      SweepTwice(f.(journal := Some(Retire(CommitRecord(j)))));
      SweepTwice(f.(journal := Some(Retire(j))));
      SweepTwice(f.(journal := Some(Retire(UnarmedRollback(j)))));
      SweepTwice(Undone(f, j).(journal := Some(Retire(RollbackRecord(j)))));
  }

  /** Reconciling again changes nothing: no selector, release, backup, host artifact or journal field. */
  lemma OutcomeIsIdempotent(f: Files)
    ensures Outcome(Outcome(f)) == Outcome(f)
  {
    OutcomeIsQuiescent(f);
    OutcomeRetires(f);
    QuiescentIsFixed(Outcome(f));
  }

  lemma OutcomeRetires(f: Files)
    ensures Outcome(f).journal.Some? && Outcome(f).journal.value.retired && !Outcome(f).journal.value.phase.StartingBaseline?
            ==> Retire(Outcome(f).journal.value) == Outcome(f).journal.value
  {
    hide RestoreAll, HostRestorePlanned, Retained;
  }

  lemma QuiescentIsFixed(f: Files)
    requires Quiescent(f)
    requires f.journal.Some? && f.journal.value.retired && !f.journal.value.phase.StartingBaseline?
             ==> Retire(f.journal.value) == f.journal.value
    ensures Outcome(f) == f
  {
  }

  // ---- no crash changes where recovery ends ----

  /** The journal writes reconcile makes. */
  predicate Recovers(f: Files, n: Journal) {
    && f.journal.Some?
    && var j := f.journal.value;
       || Undoes(f, j, n)
       || (Concludes(f, j, n) && !j.phase.StartingBaseline?)
       || (n.phase.Committed? && AdvancesForward(f, j, n))
  }

  lemma UndoKeepsOutcome(f: Files, j: Journal, n: Journal)
    requires f.journal == Some(j) && JournalGood(f, j) && Undoes(f, j, n)
    ensures Outcome(f.(journal := Some(n))) == Outcome(f)
  {
    UndoMarkers(f, j, n);
    assert RollbackEntry(j) && RollbackEntry(n) by {
      assert j.armed;
    }
    assert StartingRecord(n) == StartingRecord(j) && RollbackRecord(n) == RollbackRecord(j);
  }

  lemma RestoredIsUndone(f: Files, j: Journal)
    requires Good(f) && f.journal == Some(j) && RestorationDone(f, j)
    ensures Undone(f, j) == f
  {
    AcceptedPathsUnique(f, j);
    if HostRestorePlanned(j) {
      RestoreMatchedIsIdentity(f.host, j.hostArtifacts);
    }
  }

  lemma ConclusionKeepsOutcome(f: Files, j: Journal, n: Journal)
    requires Good(f) && f.journal == Some(j) && Concludes(f, j, n) && !j.phase.StartingBaseline?
    ensures Outcome(f.(journal := Some(n))) == Outcome(f)
  {
    if RestorationDone(f, j) {
      RestoredIsUndone(f, j);
    }
  }

  lemma RecoveryMoveKeepsOutcome(f: Files, n: Journal)
    requires Good(f) && Recovers(f, n)
    ensures Outcome(f.(journal := Some(n))) == Outcome(f)
  {
    var j := f.journal.value;
    if Undoes(f, j, n) {
      UndoKeepsOutcome(f, j, n);
    } else if n.phase.Committed? && AdvancesForward(f, j, n) {
    } else {
      ConclusionKeepsOutcome(f, j, n);
    }
  }

  /** A rewrite of `j` that belongs to recovery: a step back, a conclusion, a commit, a retirement. */
  predicate Backward(j: Journal, n: Journal) {
    && !j.phase.StartingBaseline?
    && !n.phase.Staging? && !n.phase.Prepared? && !n.phase.SwitchingCurrent? && !n.phase.CurrentSwitched?
    && !n.phase.SwitchingPrevious? && !n.phase.Activated? && !n.phase.Finalizing?
  }

  lemma UndoIsBackward(f: Files, j: Journal, n: Journal)
    requires Undoes(f, j, n)
    ensures Backward(j, n)
  {
  }

  lemma BackwardRecovers(f: Files, j: Journal, n: Journal)
    requires f.journal == Some(j) && Moves(f, n) && Backward(j, n)
    ensures Recovers(f, n)
  {
  }

  lemma BackwardIsRecovery(w: World, j: Journal, n: Journal)
    requires w.vis.journal == Some(j) && Allowed(w, PutJournal(n)) && Backward(j, n)
    ensures RecoveryStep(w, PutJournal(n))
  {
    hide Moves, Image, Recovers;
    forall f | Image(w, f) && f.journal == w.vis.journal ensures Recovers(f, n) {
      BackwardRecovers(f, j, n);
    }
  }

  lemma SyncIsRecovery(w: World, s: Step)
    requires s.SyncState? || s.SyncInstall? || s.SyncReleases? || s.SyncSnapshot? || s.SyncStateRoot? || s.SyncHost?
    ensures Allowed(w, s) && RecoveryStep(w, s)
  {
  }

  lemma UnitDriftIsRecovery(w: World, active: set<Unit>, enabled: set<Unit>, ready: set<Unit>)
    ensures RecoveryStep(w, UnitDrift(active, enabled, ready))
  {
  }

  lemma SelectionIsRecovery(w: World, slot: Slot, d: Option<Digest>)
    requires JournalSynced(w) && RollingBack(w.vis) && Allowed(w, PutSelector(slot, d))
    ensures RecoveryStep(w, PutSelector(slot, d))
  {
    hide MaySelect;
  }

  lemma CleanupIsRecovery(w: World, o: Files)
    requires Converges(w, o) && w.vis.allowlist == w.dur.allowlist && Sweeps(w.vis)
    ensures forall ids :: Allowed(w, DropBackups(ids)) ==> RecoveryStep(w, DropBackups(ids))
    ensures forall ds :: Allowed(w, DropReleases(ds)) ==> RecoveryStep(w, DropReleases(ds))
  {
    assert Image(w, w.vis);
    assert forall f :: Image(w, f) ==> Outcome(f) == Outcome(w.vis);
    hide Allowed, Outcome;
  }

  predicate RollingBack(f: Files) {
    f.journal.Some? && (f.journal.value.phase.RollingBackCurrent? || f.journal.value.phase.RollingBackPrevious?)
  }

  /** Recovery of this disk ends in a cleanup, not in pending baseline starts. */
  predicate Sweeps(f: Files) {
    Outcome(f).journal.Some? ==> !Outcome(f).journal.value.phase.StartingBaseline?
  }

  /** A step of recovery: anything reconcile does, systemd drift, an fsync, a crash. */
  ghost predicate RecoveryStep(w: World, s: Step) {
    && Allowed(w, s)
    && match s
       case PutJournal(n) => forall f :: Image(w, f) && f.journal == w.vis.journal ==> Recovers(f, n)
       case PutSelector(_, _) => forall f :: Image(w, f) ==> RollingBack(f)
       case DropBackups(_) => forall f :: Image(w, f) ==> Sweeps(f)
       case DropReleases(_) => forall f :: Image(w, f) ==> Sweeps(f)
       case AddRelease(_) | PutBackup(_, _) | HostDrift(_, _, _) => false
       case _ => true
  }

  /** `o` is where every crash image of `w` is recovered to. */
  ghost predicate Converges(w: World, o: Files) {
    forall f :: Image(w, f) ==> Outcome(f) == o
  }

  lemma JournalWriteKeepsOutcome(w: World, n: Journal, o: Files)
    requires Inv(w) && Converges(w, o) && RecoveryStep(w, PutJournal(n))
    ensures Converges(Do(w, PutJournal(n)), o)
  {
    forall g | Image(Do(w, PutJournal(n)), g) ensures Outcome(g) == o {
      var f := PriorOfJournalWrite(w, n, g);
      if g != f {
        RecoveryMoveKeepsOutcome(f, n);
      }
    }
  }

  lemma SelectKeepsOutcome(f: Files, slot: Slot, d: Option<Digest>)
    requires Good(f) && RollingBack(f)
    ensures Outcome(Select(f, slot, d)) == Outcome(f)
  {
    var j := f.journal.value;
    var g := Select(f, slot, d);
    assert Undone(g, j) == Undone(f, j);
  }

  lemma SelectorWriteKeepsOutcome(w: World, slot: Slot, d: Option<Digest>, o: Files)
    requires Inv(w) && Converges(w, o) && RecoveryStep(w, PutSelector(slot, d))
    ensures Converges(Do(w, PutSelector(slot, d)), o)
  {
    forall g | Image(Do(w, PutSelector(slot, d)), g) ensures Outcome(g) == o {
      var f := PriorOfSelectorWrite(w, slot, d, g);
      SelectKeepsOutcome(f, slot, d);
    }
  }

  lemma RestoreKeepsOutcome(w: World, r: HostRecord, o: Files)
    requires Inv(w) && Converges(w, o) && RecoveryStep(w, RestoreHost(r))
    ensures Converges(Do(w, RestoreHost(r)), o)
  {
    var w' := Do(w, RestoreHost(r));
    forall f | Image(w', f) ensures Outcome(f) == o {
      var before := f.(host := Replace(f.host, r.path, At(w.dur.host, r.path)));
      assert Image(w, before);
      RestoredHostKeepsOutcome(before, f, r);
    }
  }

  /** An image in which one recorded path is already back has the outcome of the image in which it is not. */
  lemma RestoredHostKeepsOutcome(before: Files, f: Files, r: HostRecord)
    requires Good(before) && before.journal.Some?
    requires before.journal.value.phase.RestoringHost? && r in before.journal.value.hostArtifacts
    requires f == before.(host := f.host) && forall p :: p != r.path ==> At(f.host, p) == At(before.host, p)
    requires At(f.host, r.path) == Recorded(r) || At(f.host, r.path) == At(before.host, r.path)
    ensures Outcome(f) == Outcome(before)
  {
    hide Recorded;
    var j := before.journal.value;
    AcceptedPathsUnique(before, j);
    RestoreOneFirst(before.host, j.hostArtifacts, r);
    if At(f.host, r.path) == Recorded(r) {
      SameHost(f.host, Replace(before.host, r.path, Recorded(r)));
    } else {
      SameHost(f.host, before.host);
    }
  }

  /** What the cleanup would remove anyway does not matter to where recovery ends. */
  lemma SweepIgnoresGarbage(f: Files, g: Files)
    requires Good(f) && Sweeps(f) && g == f.(releases := g.releases, backups := g.backups)
    requires g.releases * Needed(f) == f.releases * Needed(f)
    ensures Outcome(g) == Outcome(f)
  {
    hide Good, Swept, Recovered;
    OutcomeRetainsNeeded(f);
    OutcomeRetains(f);
    RecoveredAlike(f, f);
    RecoveredAlike(f, g);
    SweptAlike(Recovered(f), Recovered(g), Needed(f));
  }

  lemma RecoveredAlike(f: Files, g: Files)
    requires g == f.(releases := g.releases, backups := g.backups)
    ensures Recovered(g) == Recovered(f).(releases := g.releases, backups := g.backups)
  {
    hide Undone, Retire, CommitRecord, UnarmedRollback, RollbackRecord, StartingRecord;
    if f.journal.Some? {
      UndoneAlike(f, g, f.journal.value);
    }
  }

  lemma UndoneAlike(f: Files, g: Files, j: Journal)
    requires g == f.(releases := g.releases, backups := g.backups)
    ensures Undone(g, j) == Undone(f, j).(releases := g.releases, backups := g.backups)
  {
    hide RestoreAll, HostRestorePlanned;
  }

  lemma OutcomeRetains(f: Files)
    ensures Retained(Outcome(f)) == Retained(Recovered(f))
  {
    hide Recovered;
  }

  lemma SweptAlike(f: Files, g: Files, needed: set<Digest>)
    requires g == f.(releases := g.releases, backups := g.backups)
    requires Retained(f) <= needed && g.releases * needed == f.releases * needed
    ensures Swept(g) == Swept(f)
  {
    assert f.releases * Retained(f) == f.releases * needed * Retained(f);
    assert g.releases * Retained(f) == g.releases * needed * Retained(f);
  }

  /** Recovery selects only releases the disk already names. */
  lemma OutcomeRetainsNeeded(f: Files)
    requires Good(f)
    ensures Retained(Outcome(f)) <= Needed(f)
  {
    hide RestoreAll, HostRestorePlanned, Accepts, HostMatches, ReleasesKept, Outcome, Retire, CommitRecord,
         UnarmedRollback, RollbackRecord, StartingRecord;
    OutcomeRetains(f);
  }

  lemma DropReleasesKeepsOutcome(w: World, ds: set<Digest>, o: Files)
    requires Inv(w) && Converges(w, o) && RecoveryStep(w, DropReleases(ds))
    ensures Converges(Do(w, DropReleases(ds)), o)
  {
    var w' := Do(w, DropReleases(ds));
    forall f | Image(w', f) ensures Outcome(f) == o {
      var before := f.(releases := f.releases + w.vis.releases * w.dur.releases);
      assert Image(w, before);
      assert Needed(before) == Needed(f) && ds !! Needed(before);
      assert f.releases * Needed(before) == before.releases * Needed(before);
      SweepIgnoresGarbage(before, f);
    }
  }

  lemma DropBackupsKeepsOutcome(w: World, ids: set<BackupId>, o: Files)
    requires Inv(w) && Converges(w, o) && RecoveryStep(w, DropBackups(ids))
    ensures Converges(Do(w, DropBackups(ids)), o)
  {
    var w' := Do(w, DropBackups(ids));
    forall f | Image(w', f) ensures Outcome(f) == o {
      var back := map id | id in ids && id in w.dur.backups :: w.dur.backups[id];
      var before := f.(backups := f.backups + back);
      assert Image(w, before);
      SweepIgnoresGarbage(before, f);
    }
  }

  lemma CrashKeepsOutcome(w: World, image: Files, o: Files)
    requires Converges(w, o) && Image(w, image)
    ensures Converges(Do(w, Crash(image)), o)
  {
    var w' := Do(w, Crash(image));
    forall f | Image(w', f) ensures Outcome(f) == o {
      SameHost(f.host, image.host);
      assert f.backups == image.backups;
      assert f == image;
    }
  }

  /** The visible files recover to one disk. */
  lemma SyncedConverges(w: World)
    ensures Converges(Synced(w), Outcome(w.vis))
  {
    hide Outcome;
    forall f | Image(Synced(w), f) ensures f == w.vis {
      SameHost(f.host, w.vis.host);
      assert f.backups == w.vis.backups;
    }
  }

  lemma SyncedRecoveryStep(w: World, s: Step)
    requires Inv(w) && RecoveryStep(w, s) && !s.Crash?
    ensures RecoveryStep(Synced(w), s)
  {
    hide Image, Good, Moves, MaySelect, Needed, MayForget, Recovers, Sweeps, RollingBack, Allowed;
    SyncedIsInv(w);
    SyncedAllows(w, s);
  }

  /** A write of recovery leaves where the visible files recover to. */
  lemma RecoveryStepKeepsVisibleOutcome(w: World, s: Step)
    requires Inv(w) && RecoveryStep(Synced(w), s) && !s.Crash?
    ensures Outcome(Do(w, s).vis) == Outcome(w.vis)
  {
    hide Outcome, RecoveryStep, Converges, Inv;
    SyncedIsInv(w);
    SyncedConverges(w);
    RecoveryStepKeepsOutcome(Synced(w), s, Outcome(w.vis));
    VisibleConverges(Do(Synced(w), s), Outcome(w.vis));
    assert Do(Synced(w), s).vis == Do(w, s).vis;
  }

  lemma VisibleConverges(w: World, o: Files)
    requires Inv(w) && Converges(w, o)
    ensures Outcome(w.vis) == o
  {
    hide Good, Outcome;
    assert Image(w, w.vis);
  }

  lemma UnwrittenKeepsOutcome(w: World, w': World, o: Files)
    requires Converges(w, o)
    requires forall f :: Image(w', f) ==> Image(w, f)
    ensures Converges(w', o)
  {
  }

  lemma RecoveryStepKeepsOutcome(w: World, s: Step, o: Files)
    requires Inv(w) && Converges(w, o) && RecoveryStep(w, s)
    ensures Inv(Do(w, s)) && Converges(Do(w, s), o)
  {
    StepKeepsInv(w, s);
    if s.PutJournal? {
      JournalWriteKeepsOutcome(w, s.journal, o);
    } else if s.PutSelector? {
      SelectorWriteKeepsOutcome(w, s.slot, s.digest, o);
    } else if s.RestoreHost? {
      RestoreKeepsOutcome(w, s.record, o);
    } else if s.DropReleases? {
      DropReleasesKeepsOutcome(w, s.releases, o);
    } else if s.DropBackups? {
      DropBackupsKeepsOutcome(w, s.backups, o);
    } else if s.Crash? {
      CrashKeepsOutcome(w, s.image, o);
    } else {
      OtherStepsShrinkImages(w, s);
      UnwrittenKeepsOutcome(w, Do(w, s), o);
    }
  }
}
