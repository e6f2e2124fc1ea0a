/** What a transaction owes to the consumers it touches: everything it planned to stop is stopped before anything is put
    back, the native boundary is restored before the host, and what was stopped is started again and seen ready. */
module ConsumerDuties {
  import opened ReleaseTypes
  import opened JournalRules
  import opened Protocol
  import opened CrashModel
  import opened Recovery
  import opened Runs
  import opened ReconcileScript

  /** Every disk has a transaction that goes forward, or has not moved yet. */
  ghost predicate GoingForward(w: World) {
    forall f :: Image(w, f) ==> f.journal.Some? && Onward(f.journal.value.phase)
  }

  predicate Onward(p: Phase) {
    || p.Staging? || p.Prepared? || p.SwitchingCurrent? || p.CurrentSwitched? || p.SwitchingPrevious? || p.Activated?
    || p.Finalizing? || p.Committed?
  }

  ghost predicate Stops(steps: seq<Step>, u: Unit) {
    exists k :: 0 <= k < |steps| && steps[k].StopUnits? && u in steps[k].units
  }

  ghost predicate RestoresBoundary(steps: seq<Step>, native: Option<NativeRecord>) {
    exists k :: 0 <= k < |steps| && steps[k].RestoreNative? && native == Some(steps[k].native)
  }

  lemma StopsMore(steps: seq<Step>, more: seq<Step>, u: Unit)
    requires Stops(steps, u) && steps <= more
    ensures Stops(more, u)
  {
    var k :| 0 <= k < |steps| && steps[k].StopUnits? && u in steps[k].units;
    assert more[k] == steps[k];
  }

  lemma RestoresMore(steps: seq<Step>, more: seq<Step>, native: Option<NativeRecord>)
    requires RestoresBoundary(steps, native) && steps <= more
    ensures RestoresBoundary(more, native)
  {
    var k :| 0 <= k < |steps| && steps[k].RestoreNative? && native == Some(steps[k].native);
    assert more[k] == steps[k];
  }

  // ---- first stop, then put back ----

  /** The part of a rollback behind the stop of its consumers. */
  predicate PutsBack(p: Phase) {
    || p.ConsumersStopped? || p.RollingBackCurrent? || p.RollingBackPrevious? || p.RestoringNative? || p.NativeRestored?
    || p.RestoringHost? || p.HostRestored? || p.StartingBaseline?
  }

  lemma UndoPutsBack(f: Files, j: Journal, n: Journal)
    requires Undoes(f, j, n) && PutsBack(n.phase)
    ensures n == j.(phase := n.phase)
    ensures PutsBack(j.phase) || (n.phase.ConsumersStopped? && j.phase.StoppingConsumers?) || EffectivePlan(j) == []
  {
    hide EffectivePlan, HostMatches, ManagedDaemonPlan;
  }

  lemma ConclusionPutsBack(f: Files, j: Journal, n: Journal)
    requires Concludes(f, j, n) && PutsBack(n.phase)
    ensures PutsBack(j.phase) && n == j.(phase := n.phase, restored := n.restored)
  {
    hide ManagedDaemonPlan;
  }

  lemma ForwardPutsNothingBack(f: Files, j: Journal, n: Journal)
    requires AdvancesForward(f, j, n)
    ensures !PutsBack(n.phase)
  {
  }

  /** A journal enters that part by a report, over an empty plan, or from that part. */
  lemma PuttingBackMove(f: Files, j: Journal, n: Journal, u: Unit)
    requires Good(f) && f.journal == Some(j) && Advances(f, j, n) && PutsBack(n.phase)
    requires u in n.plan && (u.Daemon? ==> n.daemonStarted)
    ensures u in j.plan && (u.Daemon? ==> j.daemonStarted)
    ensures PutsBack(j.phase) || (n.phase.ConsumersStopped? && j.phase.StoppingConsumers?)
  {
    hide Good, AdvancesForward, Undoes, Concludes, EffectivePlan, Fenced, PutsBack;
    ConsumersOfJournal(f, j);
    if AdvancesForward(f, j, n) {
      ForwardPutsNothingBack(f, j, n);
    } else if Undoes(f, j, n) {
      UndoPutsBack(f, j, n);
    } else {
      ConclusionPutsBack(f, j, n);
    }
  }

  /** The report itself: the stop right before it took every planned unit. */
  lemma ReportedStop(w: World, steps: seq<Step>, u: Unit)
    requires Inv(w) && Legal(w, steps) && steps != [] && Last(steps).StopUnits?
    requires After(w, steps).vis.journal.Some?
    requires var j := After(w, steps).vis.journal.value; u in j.plan && (u.Daemon? ==> j.daemonStarted)
    ensures Stops(steps, u)
  {
    hide Good, InStep, EffectivePlan;
    var x := After(w, Front(steps));
    RunKeepsInv(w, Front(steps));
    VisibleIsImage(x);
    ConsumersOfJournal(x.vis, x.vis.journal.value);
  }

  /** On whatever disk a crash leaves, a rollback that puts anything back has stopped every consumer of its plan, but a
      daemon without its marker. */
  lemma {:induction false} StoppedBeforePutBack(w: World, steps: seq<Step>, g: Files, u: Unit)
    requires Inv(w) && Legal(w, steps) && GoingForward(w) && forall i :: 0 <= i < |steps| ==> !Opening(steps[i])
    requires Image(After(w, steps), g) && g.journal.Some? && PutsBack(g.journal.value.phase)
    requires u in g.journal.value.plan && (u.Daemon? ==> g.journal.value.daemonStarted)
    ensures Stops(steps, u)
  {
    hide Inv, Good, Image, Allowed, Advances, Stops;
    if steps != [] {
      var front, s := Front(steps), Last(steps);
      var x := After(w, front);
      RunKeepsInv(w, front);
      InvHasAllowlist(x);
      var f := PriorImage(x, s, g);
      if s.PutJournal? && g != f {
        MovesInImage(x, s.journal, f);
        MoveStaysInTransaction(f, s.journal);
        PuttingBackMove(f, f.journal.value, s.journal, u);
        if !PutsBack(f.journal.value.phase) {
          ReportedStop(w, front, u);
          StopsMore(front, steps, u);
        }
      }
      if PutsBack(f.journal.value.phase) {
        StoppedBeforePutBack(w, front, f, u);
        StopsMore(front, steps, u);
      }
    }
  }

  /** Whatever run: nothing is put back, neither a selector nor a host path, before every such consumer was stopped. */
  lemma PutBackFollowsStops(w: World, steps: seq<Step>, i: nat, u: Unit)
    requires Inv(w) && Legal(w, steps) && GoingForward(w) && forall m :: 0 <= m < |steps| ==> !Opening(steps[m])
    requires i < |steps| && After(w, steps[..i]).vis.journal.Some?
    requires steps[i].RestoreHost? || (steps[i].PutSelector? && !Onward(After(w, steps[..i]).vis.journal.value.phase))
    requires var j := After(w, steps[..i]).vis.journal.value; u in j.plan && (u.Daemon? ==> j.daemonStarted)
    ensures Stops(steps[..i], u)
  {
    hide Inv, Good, Legal, After, Image, Stops;
    StepOfRun(w, steps, i);
    LegalPrefix(w, steps, i);
    var x := After(w, steps[..i]);
    InvHasAllowlist(x);
    VisibleIsImage(x);
    StoppedBeforePutBack(w, steps[..i], x.vis, u);
  }

  /** A stop takes exactly the planned consumers, by force exactly if the daemon is among them. */
  lemma StopsArePlanned(w: World, steps: seq<Step>, k: nat, f: Files, u: Unit)
    requires Inv(w) && Legal(w, steps) && k < |steps| && steps[k].StopUnits? && Image(After(w, steps[..k]), f)
    ensures f.journal.Some?
    ensures var j := f.journal.value; u in steps[k].units <==> u in j.plan && (u.Daemon? ==> j.daemonStarted)
    ensures steps[k].force <==> Daemon in steps[k].units
  {
    hide InStep, Image, EffectivePlan, Legal, After;
    StepOfRun(w, steps, k);
    ConsumersOfJournal(f, f.journal.value);
    assert Accepts(f.allowlist, f.backups, f.journal.value);
  }

  /** The outer installer may change the host exactly while no snapshot is relied on and the transaction goes forward, is
      over, or has no host of its own. */
  lemma InstallerActsBefore(f: Files, j: Journal)
    requires Good(f) && f.journal == Some(j)
    ensures InstallerMayChangeHost(f) <==>
              !HostExact(j) && (j.kind.Archive? && !j.retired ==> Onward(j.phase))
  {
    assert Accepts(f.allowlist, f.backups, j);
  }

  // ---- the native boundary ----

  /** The part of a rollback behind the native boundary. */
  predicate PastBoundary(j: Journal) {
    var p := j.phase;
    || p.NativeRestored? || p.RestoringHost? || p.HostRestored? || p.StartingBaseline? || (p.RolledBack? && !j.retired)
  }

  lemma UndoPastBoundary(f: Files, j: Journal, n: Journal)
    requires Undoes(f, j, n) && PastBoundary(n)
    ensures n == j.(phase := n.phase)
    ensures NativeRestorePlanned(j) ==> PastBoundary(j) || (n.phase.NativeRestored? && j.phase.RestoringNative?)
  {
    hide EffectivePlan, HostMatches, ManagedDaemonPlan, HostRestorePlanned, NativeRestorePlanned;
  }

  lemma ConclusionPastBoundary(f: Files, j: Journal, n: Journal)
    requires Concludes(f, j, n) && PastBoundary(n) && MarkersValid(j)
    ensures n.plan == j.plan && n.daemonStarted == j.daemonStarted && n.native == j.native
    ensures HostRestorePlanned(j) && n.daemonStarted ==> PastBoundary(j)
  {
    hide ManagedDaemonPlan, HostRestorePlanned;
  }

  lemma ForwardStaysBefore(f: Files, j: Journal, n: Journal)
    requires AdvancesForward(f, j, n)
    ensures !PastBoundary(n)
  {
  }

  lemma BoundaryMove(f: Files, j: Journal, n: Journal)
    requires Good(f) && f.journal == Some(j) && Advances(f, j, n) && PastBoundary(n) && Daemon in n.plan && n.daemonStarted
    ensures Daemon in j.plan && j.daemonStarted && n.native == j.native
    ensures PastBoundary(j) || (n.phase.NativeRestored? && j.phase.RestoringNative?)
  {
    hide AdvancesForward, Undoes, Concludes, EffectivePlan, Fenced, PastBoundary, ManagedDaemonPlan, HostRestorePlanned;
    ConsumersOfJournal(f, j);
    assert Accepts(f.allowlist, f.backups, j) && MarkersValid(j);
    if AdvancesForward(f, j, n) {
      ForwardStaysBefore(f, j, n);
    } else if Undoes(f, j, n) {
      UndoPastBoundary(f, j, n);
    } else {
      ConclusionPastBoundary(f, j, n);
    }
  }

  lemma ReportedBoundary(w: World, steps: seq<Step>, j: Journal)
    requires Inv(w) && Legal(w, steps) && steps != [] && Last(steps).RestoreNative?
    requires After(w, steps).vis.journal == Some(j)
    ensures RestoresBoundary(steps, j.native)
  {
    hide Good, InStep;
    var x := After(w, Front(steps));
    RunKeepsInv(w, Front(steps));
    VisibleIsImage(x);
  }

  /** On whatever disk a crash leaves, a rollback that took the daemon over has restored the native boundary, from the
      snapshot of this transaction, before it restored the host, queued a start or ended. */
  lemma {:induction false} BoundaryBeforeHost(w: World, steps: seq<Step>, g: Files)
    requires Inv(w) && Legal(w, steps) && GoingForward(w) && forall i :: 0 <= i < |steps| ==> !Opening(steps[i])
    requires Image(After(w, steps), g) && g.journal.Some? && PastBoundary(g.journal.value)
    requires Daemon in g.journal.value.plan && g.journal.value.daemonStarted
    ensures RestoresBoundary(steps, g.journal.value.native)
  {
    hide Inv, Good, Image, Allowed, Advances, RestoresBoundary;
    if steps != [] {
      var front, s := Front(steps), Last(steps);
      var x := After(w, front);
      RunKeepsInv(w, front);
      InvHasAllowlist(x);
      var f := PriorImage(x, s, g);
      if s.PutJournal? && g != f {
        MovesInImage(x, s.journal, f);
        MoveStaysInTransaction(f, s.journal);
        BoundaryMove(f, f.journal.value, s.journal);
        if !PastBoundary(f.journal.value) {
          ReportedBoundary(w, front, f.journal.value);
          RestoresMore(front, steps, s.journal.native);
        }
      }
      if PastBoundary(f.journal.value) {
        BoundaryBeforeHost(w, front, f);
        RestoresMore(front, steps, g.journal.value.native);
      }
    }
  }

  // ---- what the terminal record says ----

  /** The transaction was armed, and if it was rolled back its record says whether the host was restored. */
  predicate Truthful(j: Journal) {
    || j.armed || j.retired || CommitIntent(j)
    || (j.phase.RolledBack? && (j.restored <==> j.kind.Archive? && (Daemon in j.plan ==> j.daemonStarted)))
  }

  lemma ConclusionIsTruthful(f: Files, j: Journal, n: Journal)
    requires Good(f) && f.journal == Some(j) && Concludes(f, j, n) && Truthful(j)
    ensures Truthful(n)
  {
    hide Accepts, ManagedDaemonPlan, HostRestorePlanned, EffectivePlan, Fenced;
    ConsumersOfJournal(f, j);
  }

  lemma OtherMovesKeepArmed(f: Files, j: Journal, n: Journal)
    requires AdvancesForward(f, j, n) || Undoes(f, j, n)
    requires Truthful(j) && (j.retired ==> Terminal(j.phase))
    ensures Truthful(n)
  {
    hide ManagedDaemonPlan, EffectivePlan, HostMatches, BaselineValid;
  }

  lemma TruthfulMove(f: Files, j: Journal, n: Journal)
    requires Good(f) && f.journal == Some(j) && Advances(f, j, n) && Truthful(j)
    ensures Truthful(n)
  {
    hide AdvancesForward, Undoes, Concludes, Truthful;
    assert Accepts(f.allowlist, f.backups, j) && MarkersValid(j);
    if Concludes(f, j, n) {
      ConclusionIsTruthful(f, j, n);
    } else {
      OtherMovesKeepArmed(f, j, n);
    }
  }

  /** However an armed transaction was interrupted: a record of its rollback says that the host was restored exactly if it
      belonged to the transaction, the daemon of a plan that owns it included. */
  lemma {:induction false} RollbackIsReported(w: World, steps: seq<Step>, g: Files)
    requires Inv(w) && Legal(w, steps) && (forall f :: Image(w, f) ==> f.journal.Some? && f.journal.value.armed)
    requires forall i :: 0 <= i < |steps| ==> !Opening(steps[i])
    requires Image(After(w, steps), g)
    ensures g.journal.Some? && Truthful(g.journal.value)
  {
    hide Inv, Good, Image, Allowed, Advances;
    if steps != [] {
      var front, s := Front(steps), Last(steps);
      var x := After(w, front);
      RunKeepsInv(w, front);
      InvHasAllowlist(x);
      var f := PriorImage(x, s, g);
      RollbackIsReported(w, front, f);
      if s.PutJournal? && g != f {
        MovesInImage(x, s.journal, f);
        MoveStaysInTransaction(f, s.journal);
        TruthfulMove(f, f.journal.value, s.journal);
      }
    }
  }

  // ---- what was stopped is started again ----

  /** A consumer the transaction stopped is one it owes, whatever crashed since. */
  lemma StoppedIsOwed(w: World, steps: seq<Step>, k: nat, m: nat, j: Journal, u: Unit)
    requires Inv(w) && Legal(w, steps) && k < m <= |steps| && steps[k].StopUnits? && u in steps[k].units
    requires forall i :: k <= i < m ==> !Opening(steps[i])
    requires After(w, steps[..m]).vis.journal == Some(j) && u in j.activeBefore && !j.phase.RolledBack?
    ensures Fenced(j, u)
  {
    hide Inv, Good, Legal, After, Image, Fenced;
    LegalPrefix(w, steps, m);
    RunKeepsInv(w, steps[..m]);
    var x := After(w, steps[..m]);
    InvHasAllowlist(x);
    VisibleIsImage(x);
    if u.Daemon? { DaemonTouchedOnlyUnderMarker(w, steps, k, m); }
    ConsumersOfJournal(x.vis, j);
  }

  /** When a pending rollback is acknowledged, every consumer it had stopped and found active before is active and ready. */
  lemma StoppedAreReady(w: World, steps: seq<Step>, k: nat, m: nat, u: Unit)
    requires Inv(w) && Legal(w, steps) && k < m < |steps| && steps[k].StopUnits? && u in steps[k].units
    requires forall i :: k <= i < m ==> !Opening(steps[i])
    requires steps[m].PutJournal? && steps[m].journal.phase.RolledBack?
    requires After(w, steps[..m]).vis.journal.Some? && After(w, steps[..m]).vis.journal.value.phase.StartingBaseline?
    requires u in After(w, steps[..m]).vis.journal.value.activeBefore
    ensures u in After(w, steps[..m]).active && u in After(w, steps[..m]).ready
  {
    hide Inv, Good, Legal, After, Image, Fenced, Moves;
    StepOfRun(w, steps, m);
    StoppedIsOwed(w, steps, k, m, After(w, steps[..m]).vis.journal.value, u);
  }

  /** An uninterrupted reconcile queues the start of every consumer the transaction stopped and found active before. */
  lemma StoppedAreQueued(w: World, steps: seq<Step>, k: nat, u: Unit, c1: Cleanup, c2: Cleanup)
    requires Inv(w) && Legal(w, steps) && k < |steps| && steps[k].StopUnits? && u in steps[k].units
    requires forall i :: k <= i < |steps| ==> !Opening(steps[i])
    requires After(w, steps).vis.journal.Some?
    requires var j := After(w, steps).vis.journal.value; u in j.activeBefore && (j.phase.StartingBaseline? || RollbackEntry(j))
    ensures StartUnit(u) in Script(After(w, steps).vis, c1, c2)
  {
    hide Inv, Good, Legal, After, Image, Fenced, Rewind;
    assert steps[..|steps|] == steps;
    var j := After(w, steps).vis.journal.value;
    StoppedIsOwed(w, steps, k, |steps|, j, u);
    FencedAreStarted(j, j.activeBefore);
    if RollbackEntry(j) {
      SameDuties(j);
      FencedAreStarted(StartingRecord(j), j.activeBefore);
    }
  }

  lemma SameDuties(j: Journal)
    ensures forall u :: Fenced(StartingRecord(j), u) <==> Fenced(j, u)
  {
  }

  lemma {:induction false} FencedAreStarted(j: Journal, units: seq<Unit>)
    ensures forall u :: StartUnit(u) in BaselineStarts(j, units) <==> u in units && Fenced(j, u)
  {
    hide Fenced;
    if units != [] {
      FencedAreStarted(j, units[..|units| - 1]);
      assert units == units[..|units| - 1] + [units[|units| - 1]];
    }
  }

  // ---- what one uninterrupted reconcile does for the consumers ----

  /** The way back serves the whole plan. */
  lemma RewindServes(before: seq<Step>, after: seq<Step>, f: Files, j: Journal)
    requires Good(f) && f.journal == Some(j) && RollbackEntry(j) && before + Rewind(f, j) <= after
    ensures forall u :: u in j.plan && (u.Daemon? ==> j.daemonStarted) ==> Stops(after[|before|..], u)
    ensures Daemon in j.plan && j.daemonStarted ==> RestoresBoundary(after[|before|..], j.native)
  {
    hide Good, EffectivePlan, NativeRestorePlanned, Unselect, RestoreHosts;
    var rest := after[|before|..];
    ConsumersOfJournal(f, j);
    assert Rewind(f, j) <= rest by {
      assert forall i :: 0 <= i < |Rewind(f, j)| ==> rest[i] == (before + Rewind(f, j))[|before| + i];
    }
    if EffectivePlan(j) != [] {
      assert rest[2] == Quiesce(j)[2];
    }
    if Daemon in j.plan && j.daemonStarted {
      var at := |Quiesce(j) + Unselect(f, j)| + 2;
      assert rest[at] == RestoreBoundary(j)[2] == RestoreNative(j.native.value);
    }
  }

  /** A reconcile of an armed rollback stops every planned consumer, restores the boundary where it took the daemon over,
      and queues every consumer that was active before. */
  lemma RollbackServes(f: Files, j: Journal, c1: Cleanup, c2: Cleanup)
    requires Good(f) && f.journal == Some(j) && RollbackEntry(j)
    ensures forall u :: u in j.plan && (u.Daemon? ==> j.daemonStarted) ==> Stops(Script(f, c1, c2), u)
    ensures Daemon in j.plan && j.daemonStarted ==> RestoresBoundary(Script(f, c1, c2), j.native)
    ensures forall u :: u in j.activeBefore && (u.Daemon? ==> j.daemonStarted) ==> StartUnit(u) in Script(f, c1, c2)
  {
    hide Good, Fenced, Rewind, Stops, RestoresBoundary;
    var all := Script(f, c1, c2);
    assert all == ReconcileScript.Rollback(f, j, c1, c2);
    assert [] + Rewind(f, j) <= all && all[0..] == all;
    RewindServes([], all, f, j);
    ConsumersOfJournal(f, j);
    SameDuties(j);
    FencedAreStarted(StartingRecord(j), j.activeBefore);
  }

  lemma EnablesAre(units: seq<Unit>)
    ensures forall s :: s in Enables(units) <==> s.EnableUnit? && s.unit in units
  {
    forall u | u in units ensures EnableUnit(u) in Enables(units) {
      var i :| 0 <= i < |units| && units[i] == u;
      assert Enables(units)[i] == EnableUnit(u);
    }
  }

  lemma StartsAre(units: seq<Unit>)
    ensures forall s :: s in Starts(units) <==> s.StartUnit? && s.unit in units
  {
    forall u | u in units ensures StartUnit(u) in Starts(units) {
      var i :| 0 <= i < |units| && units[i] == u;
      assert Starts(units)[i] == StartUnit(u);
    }
  }

  lemma FinishActsOnFiles(f: Files, j: Journal, c1: Cleanup, c2: Cleanup)
    ensures forall s :: s in Finish(f, j, c1, c2) ==> !s.EnableUnit? && !s.StartUnit?
  {
    hide Retained, Own, Orphans, Retire, Forget, Prune;
    ForgetActsOnFiles(Own(f, j.id), c1);
    ForgetActsOnFiles(Orphans(f, j.id), c2);
    PruneActsOnFiles(f);
  }

  lemma ForgetActsOnFiles(ids: set<BackupId>, c: Cleanup)
    ensures forall s :: s in Forget(ids, c) ==> !s.EnableUnit? && !s.StartUnit?
  {
  }

  lemma PruneActsOnFiles(f: Files)
    ensures forall s :: s in Prune(f) ==> !s.EnableUnit? && !s.StartUnit?
  {
    hide Retained;
  }

  lemma WantedLists(f: Files, j: Journal)
    requires Good(f) && f.journal == Some(j)
    ensures Within(j.start, j.enable)
  {
    assert Accepts(f.allowlist, f.backups, j);
  }

  /** A reconcile under commit intent enables exactly the wanted units and queues exactly the wanted starts. */
  lemma FinalizationServes(f: Files, j: Journal, c1: Cleanup, c2: Cleanup)
    requires Good(f) && f.journal == Some(j) && j.phase.Finalizing?
    ensures forall u :: EnableUnit(u) in Script(f, c1, c2) <==> u in j.enable
    ensures forall u :: StartUnit(u) in Script(f, c1, c2) <==> u in j.start
  {
    hide Good, Enables, Starts, Finish, CommitRecord;
    WantedLists(f, j);
    EnablesAre(j.enable);
    StartsAre(j.start);
    FinishActsOnFiles(f, CommitRecord(j), c1, c2);
  }
}
