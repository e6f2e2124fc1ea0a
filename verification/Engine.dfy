/** ReleaseTransactionEngine: the methods of the source over the files of one deployment.  Every method
    may be killed at any durable boundary and every callback may fail; `steps` records what was written,
    and the class invariant says that the record is a legal run of the protocol ending in this world. */
module Engine {
  import opened ReleaseTypes
  import opened JournalRules
  import opened Protocol
  import opened CrashModel
  import opened Recovery
  import opened Runs
  import opened ReconcileScript
  import opened ConsumerDuties
  import opened Texts
  import JournalValidator

  /** How a call ends: it completed, the process was killed, a callback or a system call raised,
      or the engine itself refused. */
  datatype Status = Done | Killed | Failed | Refused

  /** What is known about an engine beside its files. */
  class Aim {
    // where the recovery in progress, if any, takes the visible files, and whether it takes every crash image there
    ghost var goal: Option<Files>
    ghost var whole: bool

    // the engine went on from files whose durable side it could not rely on
    ghost var trusting: bool

    constructor ()
      ensures goal == None && !trusting
    {
      goal, whole, trusting := None, false, false;
    }
  }

  class ReleaseTransactionEngine {
    // the files as this process sees them, and as a power loss would leave them
    var files: Files
    var disk: Files

    // systemd
    var active: set<Unit>
    var enabled: set<Unit>
    var ready: set<Unit>

    ghost const start: World
    ghost var steps: seq<Step>
    const aim: Aim

    // no kill arrives, and every callback, system call and check of the environment succeeds
    const calm: bool

    /** The world the contracts speak of.  An engine that is trusting takes what it sees for durable: its contracts then
        hold of the visible files, and say nothing about a power loss. */
    ghost function Now(): World
      reads this, aim
    {
      World(files, Disk(), active, enabled, ready)
    }

    ghost function Disk(): Files
      reads this, aim
    {
      if aim.trusting then files else disk
    }

    /** Every disk a crash may leave is good, the record is a legal run to this world, and a recovery in progress still
        ends where it was headed, whatever crash comes next. */
    ghost predicate Valid()
      reads this, aim
    {
      && Inv(Now())
      && (!aim.trusting ==> Inv(start) && Legal(start, steps) && After(start, steps) == Now())
      && (aim.goal.Some? ==> Outcome(files) == aim.goal.value && (aim.whole ==> Converges(Now(), aim.goal.value)))
    }

    lemma ValidHasInv()
      requires Valid()
      ensures Inv(Now())
    {
    }

    /** The step keeps a recovery in progress on its course. */
    ghost predicate OnCourse(s: Step)
      reads this, aim
    {
      aim.goal.Some? ==> RecoveryStep(Synced(Now()), s) && (aim.whole ==> RecoveryStep(Now(), s))
    }

    lemma StaysOnCourse(s: Step)
      requires Inv(Now()) && RecoveryStep(Now(), s) && !s.Crash?
      ensures OnCourse(s)
    {
      hide RecoveryStep, Inv;
      SyncedRecoveryStep(Now(), s);
    }

    /** Operations outside the files and restorations belong to every recovery. */
    lemma ActionStays(s: Step)
      requires Inv(Now()) && Allowed(Now(), s)
      requires s.StopUnits? || s.StartUnit? || s.EnableUnit? || s.RestoreNative? || s.RestoreHost?
      ensures OnCourse(s)
    {
      hide Inv, Allowed;
      SyncedAllows(Now(), s);
    }

    /** So does the cleanup that ends it. */
    lemma CleanupStays(s: Step)
      requires Valid() && Allowed(Now(), s) && (aim.goal.Some? ==> Sweeps(files))
      requires s.DropBackups? || s.DropReleases?
      ensures OnCourse(s)
    {
      hide Inv, Allowed, RecoveryStep, Converges, Outcome, Sweeps;
      InvHasAllowlist(Now());
      if aim.goal.Some? {
        SyncedAllows(Now(), s);
        SyncedConverges(Now());
        CleanupIsRecovery(Synced(Now()), Outcome(files));
        if aim.whole { CleanupIsRecovery(Now(), aim.goal.value); }
      }
    }

    lemma SyncStays(s: Step)
      requires Inv(Now())
      requires s.SyncState? || s.SyncInstall? || s.SyncReleases? || s.SyncSnapshot? || s.SyncStateRoot? || s.SyncHost?
      ensures Allowed(Now(), s) && OnCourse(s)
    {
      hide Inv, Allowed, RecoveryStep;
      SyncIsRecovery(Now(), s);
      SyncIsRecovery(Synced(Now()), s);
    }

    /** From here on the engine relies on what it sees. */
    ghost method Trust(doubtful: bool)
      requires Valid()
      modifies aim`trusting
      ensures Valid() && aim.trusting == (old(aim.trusting) || doubtful)
      ensures Now() == if aim.trusting then Synced(old(Now())) else old(Now())
    {
      hide Inv, Legal, After, Outcome;
      if doubtful {
        SyncedIsInv(Now());
        SyncedConverges(Now());
        aim.trusting := true;
      }
    }

    /** Opens an engine on a deployment every crash image of which is good. */
    constructor (w: World, calm: bool)
      requires Inv(w)
      ensures Valid() && Now() == w && steps == [] && fresh(aim) && aim.goal == None && !aim.trusting && this.calm == calm
    {
      this.calm := calm;
      files, disk := w.vis, w.dur;
      active, enabled, ready := w.active, w.enabled, w.ready;
      start, steps := w, [];
      aim := new Aim();
    }

    /** The world after a step. */
    ghost function Next(s: Step): World
      reads this, aim
    {
      if aim.trusting then Synced(Do(Now(), s)) else Do(Now(), s)
    }

    /** The step about to be taken is part of the run. */
    ghost method Record(s: Step)
      requires Valid() && Allowed(Now(), s) && Attested(steps, s) && !s.Crash? && OnCourse(s)
      modifies this`steps
      ensures steps == old(steps) + [s]
      ensures Inv(old(Next(s)))
      ensures !aim.trusting ==> Inv(start) && Legal(start, steps) && After(start, steps) == old(Next(s))
      ensures aim.goal.Some? ==> Outcome(old(Next(s)).vis) == aim.goal.value
                                 && (aim.whole ==> Converges(old(Next(s)), aim.goal.value))
    {
      hide Inv, Allowed, RecoveryStep, Converges, Outcome;
      var w := Now();
      StepKeepsInv(w, s);
      SyncedIsInv(Do(w, s));
      if aim.goal.Some? {
        RecoveryStepKeepsVisibleOutcome(w, s);
        if aim.whole { RecoveryStepKeepsOutcome(w, s, aim.goal.value); }
        SyncedConverges(Do(w, s));
      }
      AfterOneMore(start, steps, s);
      steps := steps + [s];
    }

    /** Whatever this engine and its environment did, and wherever the machine stops, one reconcile returns to the
        register that the initial deployment and the published commit intents determine; every intent that was
        fsynced before the next crash is among them. */
    lemma HistoryRefinesRegister(g: Files) returns (first: Files, published: seq<Digest>)
      requires Valid() && !aim.trusting && Image(Now(), g)
      ensures Image(start, first)
      ensures Subsequence(Durable(steps), published) && Subsequence(published, Intents(steps))
      ensures Register(Outcome(g).current, Outcome(g).previous) == PublishAll(Abstract(first), published)
    {
      first, published := RecoverySelectsRegister(start, steps, g);
    }

    // ---- interruptions ----

    method Kill() returns (r: Status)
      ensures r.Done? || (r.Killed? && !calm)
    {
      r := Done;
      if !calm { if * { r := Killed; } }
    }

    /** A callback or a system call. */
    method Raise() returns (r: Status)
      ensures r.Done? || (r.Failed? && !calm)
    {
      r := Done;
      if !calm { if * { r := Failed; } }
    }

    method Fate() returns (r: Status)
      ensures !r.Refused? && (calm ==> r.Done?)
    {
      r := Kill();
      if r.Done? { r := Raise(); }
    }

    static lemma Joins(s: seq<Step>, a: seq<Step>, b: seq<Step>)
      ensures s + a + b == s + (a + b)
    {
    }

    predicate SameUnits(a: set<Unit>, e: set<Unit>, r: set<Unit>)
      reads this
    {
      active == a && enabled == e && ready == r
    }

    // ---- the environment between two calls ----

    /** A crash leaves any image behind; the next process starts from it. */
    method Restart(image: Files)
      requires Valid() && !aim.trusting && Image(Now(), image)
      requires aim.goal == None
      modifies this
      ensures Valid() && old(steps) <= steps
      ensures files == image && disk == image
    {
      hide Inv, Legal, After, Image;
      StepKeepsInv(Now(), Crash(image));
      AfterOneMore(start, steps, Crash(image));
      steps := steps + [Crash(image)];
      files, disk := image, image;
    }

    /** The process died but the machine did not, and the kernel wrote everything back. */
    method WriteBack()
      requires Valid()
      requires aim.goal == None
      modifies this
      ensures Valid() && old(steps) <= steps
      ensures files == old(files) && disk == files
    {
      hide Inv, Converges, Legal, After, Image, Outcome;
      Record(Flush);
      disk := files;
    }

    /** Someone outside the engine changes a host path. */
    method ChangeHost(path: HostPath, artifact: Artifact, durable: bool)
      requires Valid() && Allowed(Now(), HostDrift(path, artifact, durable))
      requires aim.goal == None
      modifies this
      ensures Valid() && old(steps) <= steps
      ensures Now() == old(Next(HostDrift(path, artifact, durable)))
    {
      hide Inv, Legal, After, Image, Allowed;
      Record(HostDrift(path, artifact, durable));
      files := files.(host := Replace(files.host, path, artifact));
      if durable {
        disk := disk.(host := Replace(disk.host, path, artifact));
      }
    }

    /** Services come and go. */
    method ChangeUnits(a: set<Unit>, e: set<Unit>, r: set<Unit>)
      requires Valid()
      requires aim.goal == None
      modifies this
      ensures Valid() && old(steps) <= steps
      ensures files == old(files) && disk == old(disk)
      ensures active == a && enabled == e && ready == r
    {
      hide Inv, Legal, After, Image;
      Record(UnitDrift(a, e, r));
      active, enabled, ready := a, e, r;
    }

    // ---- the journal ----

    /** _load_transaction: recovery is never wedged by the engine's own record. */
    method LoadTransaction() returns (r: Status, t: Option<Journal>)
      requires Valid()
      ensures r == Done && t == files.journal
    {
      VisibleIsImage(Now());
      t := files.journal;
      if t.None? { return Done, t; }
      var ok := JournalValidator.ValidateTransaction(files.allowlist, files.backups, t.value);
      r := if ok then Done else Refused;
    }

    /** _write_transaction: os.replace of the journal, then fsync of its directory.  Refused exactly when
        the validator rejects the record. */
    method WriteTransaction(n: Journal) returns (r: Status)
      requires Valid()
      requires Accepts(files.allowlist, files.backups, n) ==> Allowed(Now(), PutJournal(n))
      requires Accepts(files.allowlist, files.backups, n) ==> OnCourse(PutJournal(n)) && Attested(steps, PutJournal(n))
      modifies this
      ensures Valid() && old(steps) <= steps
      ensures r.Refused? <==> !Accepts(old(files).allowlist, old(files).backups, n)
      ensures calm ==> r.Done? || r.Refused?
      ensures r.Refused? ==> Now() == old(Now()) && steps == old(steps)
      ensures r.Done? ==> JournalSynced(Now()) && Now() == Logged(old(Now()), n) && steps == old(steps) + Log(n)
    {
      hide Valid, Inv, Converges, Legal, After, Moves, Image, Allowed, OnCourse, Accepts;
      ValidHasInv();
      InvHasAllowlist(Now());
      var ok := JournalValidator.ValidateTransaction(files.allowlist, files.backups, n);
      if !ok { return Refused; }
      r := Raise();
      if !r.Done? { return; }
      ReplaceRecord(n);
      r := Fate();
      if !r.Done? { return; }
      SyncRecord();
    }

    method ReplaceRecord(n: Journal)
      requires Valid() && Allowed(Now(), PutJournal(n)) && Attested(steps, PutJournal(n)) && OnCourse(PutJournal(n))
      modifies this
      ensures Valid() && steps == old(steps) + [PutJournal(n)]
      ensures files == old(files).(journal := Some(n)) && disk == old(disk) && SameUnits(old(active), old(enabled), old(ready))
    {
      hide Inv, Converges, Legal, After, Allowed, OnCourse, Outcome;
      Record(PutJournal(n));
      files := files.(journal := Some(n));
    }

    method SyncRecord()
      requires Valid()
      modifies this
      ensures Valid() && steps == old(steps) + [SyncState]
      ensures files == old(files) && disk == old(disk).(journal := files.journal)
      ensures SameUnits(old(active), old(enabled), old(ready))
    {
      hide Inv, Converges, Legal, After, Allowed, OnCourse, Outcome;
      SyncStays(SyncState);
      Record(SyncState);
      disk := disk.(journal := files.journal);
    }

    /** _set_phase.  Whatever the protocol lets the engine write, the validator accepts. */
    method SetPhase(t: Journal, phase: Phase) returns (r: Status)
      requires Valid() && files.journal.Some?
      requires Advances(files, files.journal.value, t.(phase := phase))
      requires Advances(Disk(), files.journal.value, t.(phase := phase))
      requires UnitEvidence(Now(), t.(phase := phase)) && (HandsOver(t.(phase := phase)) ==> JournalSynced(Now()))
      requires Attested(steps, PutJournal(t.(phase := phase)))
      requires aim.goal.Some? ==> Backward(files.journal.value, t.(phase := phase))
      modifies this
      ensures Valid() && old(steps) <= steps && !r.Refused? && (calm ==> r.Done?)
      ensures r.Done? ==> JournalSynced(Now()) && Now() == Logged(old(Now()), t.(phase := phase))
                          && steps == old(steps) + Log(t.(phase := phase))
    {
      r := Rewrite(t.(phase := phase));
    }

    /** _set_phase on the way back. */
    method UndoPhase(t: Journal, phase: Phase) returns (r: Status)
      requires Valid() && files.journal == Some(t)
      requires Undoes(files, t, t.(phase := phase)) && Undoes(Disk(), t, t.(phase := phase))
      requires Attested(steps, PutJournal(t.(phase := phase)))
      modifies this
      ensures Valid() && old(steps) <= steps && !r.Refused? && (calm ==> r.Done?)
      ensures r.Done? ==> JournalSynced(Now()) && Now() == Logged(old(Now()), t.(phase := phase))
                          && steps == old(steps) + Log(t.(phase := phase))
    {
      hide Valid, Disk, Advances, AdvancesForward, Concludes, Undoes, Legal, After, Inv, Accepts;
      UndoAdvances(files, t, t.(phase := phase));
      UndoAdvances(Disk(), t, t.(phase := phase));
      UndoIsBackward(files, t, t.(phase := phase));
      r := SetPhase(t, phase);
    }

    /** A rewrite of the live journal that the protocol permits is never refused. */
    method Rewrite(n: Journal) returns (r: Status)
      requires Valid() && files.journal.Some?
      requires Advances(files, files.journal.value, n) && Advances(Disk(), files.journal.value, n)
      requires UnitEvidence(Now(), n) && (HandsOver(n) ==> JournalSynced(Now())) && Attested(steps, PutJournal(n))
      requires aim.goal.Some? ==> Backward(files.journal.value, n)
      modifies this
      ensures Valid() && old(steps) <= steps && !r.Refused? && (calm ==> r.Done?)
      ensures r.Done? ==> JournalSynced(Now()) && Now() == Logged(old(Now()), n) && steps == old(steps) + Log(n)
    {
      hide Advances, Legal, After, InStep;
      InvHasAllowlist(Now());
      AdvanceEverywhere(Now(), files.journal.value, n);
      MovesAreAccepted(files, n);
      if aim.goal.Some? {
        BackwardIsRecovery(Now(), files.journal.value, n);
        StaysOnCourse(PutJournal(n));
      }
      r := WriteTransaction(n);
    }

    // ---- selectors ----

    /** _atomic_set_selector.  The new target is durable on return unless the selector was to be removed,
        was already invisible, and that removal had never been fsynced. */
    method AtomicSetSelector(slot: Slot, d: Option<Digest>) returns (r: Status)
      requires Valid() && Allowed(Now(), PutSelector(slot, d))
      requires OnCourse(PutSelector(slot, d))
      modifies this
      ensures Valid() && old(steps) <= steps
      ensures r.Refused? <==> d.Some? && d.value !in old(files).releases
      ensures calm ==> r.Done? || r.Refused?
      ensures r.Done? ==> files == Select(old(files), slot, d)
      ensures r.Done? ==> Disk() == if d.None? && Slotted(old(files), slot).None? then old(Disk())
                                  else old(Disk()).(current := files.current, previous := files.previous)
      ensures r.Done? ==> (Slotted(Disk(), slot) == d <==>
                             d.Some? || Slotted(old(files), slot).Some? || Slotted(old(Disk()), slot).None?)
      ensures r.Done? ==> Now() == Picked(old(Now()), slot, d)
      ensures r.Done? ==> steps == old(steps) + Pick(old(files), slot, d)
      ensures SameUnits(old(active), old(enabled), old(ready))
    {
      hide Valid, OnCourse, Inv, Converges, Legal, After, Moves, Image, Allowed;
      if d.None? && Slotted(files, slot).None? { return Done; }
      if d.Some? && d.value !in files.releases { return Refused; }
      r := Raise();
      if !r.Done? { return; }
      Link(slot, d);
      r := Fate();
      if !r.Done? { return; }
      SyncLinks();
    }

    method Link(slot: Slot, d: Option<Digest>)
      requires Valid() && Allowed(Now(), PutSelector(slot, d)) && OnCourse(PutSelector(slot, d))
      modifies this
      ensures Valid() && steps == old(steps) + [PutSelector(slot, d)]
      ensures files == Select(old(files), slot, d) && disk == old(disk) && SameUnits(old(active), old(enabled), old(ready))
    {
      hide Inv, Converges, Legal, After, Allowed, OnCourse, Outcome;
      Record(PutSelector(slot, d));
      files := Select(files, slot, d);
    }

    method SyncLinks()
      requires Valid()
      modifies this
      ensures Valid() && steps == old(steps) + [SyncInstall]
      ensures files == old(files) && disk == old(disk).(current := files.current, previous := files.previous)
      ensures SameUnits(old(active), old(enabled), old(ready))
    {
      hide Inv, Converges, Legal, After, Allowed, OnCourse, Outcome;
      SyncStays(SyncInstall);
      Record(SyncInstall);
      disk := disk.(current := files.current, previous := files.previous);
    }

    /** _assert_selectors_belong_to_transaction: both selectors are among the journal's digests and, except during a
        rollback, differ. */
    method AssertSelectorsBelong(j: Journal, allowEqual: bool) returns (ok: bool)
      ensures ok <==> Belongs(j, files.current) && Belongs(j, files.previous)
                      && (allowEqual || SlotsDistinct(files.current, files.previous))
    {
      if !Belongs(j, files.current) || !Belongs(j, files.previous) { return false; }
      if files.current.Some? && files.current == files.previous && !allowEqual { return false; }
      return true;
    }

    /** A selector write on the way back. */
    method SelectBack(slot: Slot, d: Option<Digest>) returns (r: Status)
      requires Valid() && JournalSynced(Now()) && MaySelect(files, slot, d) && Stored(files.releases, d)
      requires RollingBack(files)
      modifies this
      ensures Valid() && old(steps) <= steps && !r.Refused? && (calm ==> r.Done?)
      ensures r.Done? ==> Now() == Picked(old(Now()), slot, d) && steps == old(steps) + Pick(old(files), slot, d)
    {
      hide Valid, Disk, Inv, Converges, Legal, After, Moves, Image, Allowed, MaySelect;
      ValidHasInv();
      MaySelectEverywhere(Now(), slot, d);
      ValidHasInv();
      SelectionIsRecovery(Now(), slot, d);
      StaysOnCourse(PutSelector(slot, d));
      r := AtomicSetSelector(slot, d);
      if !r.Done? { return; }
      r := Kill();
    }

    // ---- systemd callbacks ----

    method StopConsumers(units: seq<Unit>, force: bool) returns (r: Status)
      requires Valid() && Allowed(Now(), StopUnits(units, force))
      modifies this
      ensures Valid() && old(steps) <= steps && !r.Refused? && (calm ==> r.Done?)
      ensures files == old(files) && Disk() == old(Disk())
      ensures r.Done? ==> Now() == old(Now()).(active := old(active) - UnitSet(units), ready := old(ready) - UnitSet(units))
      ensures r.Done? ==> steps == old(steps) + [StopUnits(units, force)]
    {
      hide Inv, Converges, Legal, After, Moves, Image, Allowed;
      r := Fate();
      if !r.Done? {
        // a stop that raises may have stopped some of the units
        var a: set<Unit>, s: set<Unit> := *, *;
        UnitDriftIsRecovery(Now(), a, enabled, s);
        StaysOnCourse(UnitDrift(a, enabled, s));
        Record(UnitDrift(a, enabled, s));
        active, ready := a, s;
        return;
      }
      ActionStays(StopUnits(units, force));
      Record(StopUnits(units, force));
      active, ready := active - UnitSet(units), ready - UnitSet(units);
    }

    /** One start is queued without waiting; systemd may activate the unit at any later time. */
    method StartConsumer(u: Unit) returns (r: Status)
      requires Valid() && Allowed(Now(), StartUnit(u))
      modifies this
      ensures Valid() && old(steps) <= steps && !r.Refused? && (calm ==> r.Done?)
      ensures Now() == old(Now())
      ensures r.Done? ==> steps == old(steps) + [StartUnit(u)]
    {
      hide Inv, Converges, Legal, After, Moves, Image, Allowed;
      r := Raise();
      if !r.Done? { return; }
      ActionStays(StartUnit(u));
      Record(StartUnit(u));
      r := Kill();
    }

    /** The callback may return although the unit did not become enabled. */
    method EnableConsumer(u: Unit) returns (r: Status)
      requires Valid() && Allowed(Now(), EnableUnit(u))
      modifies this
      ensures Valid() && old(steps) <= steps && !r.Refused? && (calm ==> r.Done? && u in enabled)
      ensures files == old(files) && Disk() == old(Disk()) && active == old(active) && ready == old(ready)
      ensures old(enabled) <= enabled <= old(enabled) + {u}
      ensures r.Done? && u in enabled ==> steps == old(steps) + [EnableUnit(u)]
    {
      hide Inv, Converges, Legal, After, Moves, Image, Allowed;
      r := Raise();
      if !r.Done? { return; }
      var took: bool := *;
      if calm || took || u in enabled {
        ActionStays(EnableUnit(u));
        Record(EnableUnit(u));
        enabled := enabled + {u};
      }
      r := Kill();
    }

    // ---- release store and snapshots ----

    /** _prune_releases: everything the selectors do not name goes. */
    method PruneReleases(retained: set<Digest>) returns (r: Status)
      requires Valid() && Quiet(files) && CleanupHarmless(Now()) && retained == Retained(files)
      modifies this
      ensures Valid() && old(steps) <= steps && !r.Refused? && (calm ==> r.Done?)
      ensures Now() == old(Now()).(vis := old(files).(releases := files.releases),
                                   dur := old(Disk()).(releases := Disk().releases))
      ensures retained <= files.releases <= old(files).releases
      ensures CleanupHarmless(Now())
      ensures r.Done? ==> files.releases == old(files).releases * retained && steps == old(steps) + Prune(old(files))
    {
      hide Inv, Converges, Legal, After, Moves, Image, Allowed, MayForget, MayPrune, RecoveryStep, Needed, Sweeps;
      RetainedAreStored(Now());
      if !(retained <= files.releases) { return Refused; }
      var garbage := files.releases - retained;
      if garbage == {} { return Done; }
      MayPruneGarbage(Now());
      var fate := Fate();
      // a removal that fails may have removed some of the releases
      var gone: set<Digest> := *;
      gone := if fate.Done? then garbage else gone * garbage;
      RemoveReleases(gone);
      PrunedStaysHarmless(old(Now()), Now());
      if !fate.Done? { return fate; }
      r := Fate();
      if !r.Done? { return; }
      SyncStore();
      PrunedStaysHarmless(old(Now()), Now());
    }

    method RemoveReleases(gone: set<Digest>)
      requires Valid() && Allowed(Now(), DropReleases(gone)) && Sweeps(files)
      modifies this
      ensures Valid() && steps == old(steps) + [DropReleases(gone)]
      ensures files == old(files).(releases := old(files).releases - gone) && disk == old(disk)
      ensures SameUnits(old(active), old(enabled), old(ready))
    {
      hide Inv, Converges, Legal, After, Moves, Image, Allowed, RecoveryStep, Sweeps;
      CleanupStays(DropReleases(gone));
      Record(DropReleases(gone));
      files := files.(releases := files.releases - gone);
    }

    static lemma PrunedStaysHarmless(w: World, x: World)
      requires CleanupHarmless(w) && x.vis == w.vis.(releases := x.vis.releases) && x.vis.releases <= w.vis.releases
      requires x.dur == w.dur.(releases := x.dur.releases)
      ensures CleanupHarmless(x)
    {
      assert Needed(x.dur) == Needed(w.dur);
      forall d | d in x.vis.releases - Retained(x.vis) ensures MayPrune(x.dur, d) {
        assert d in w.vis.releases - Retained(w.vis);
      }
    }

    /** Before and during the terminal cleanup every unselected release may go. */
    lemma MayPruneGarbage(w: World)
      requires Inv(w) && Quiet(w.vis) && CleanupHarmless(w)
      ensures forall ds :: ds <= w.vis.releases - Retained(w.vis) ==> Allowed(w, DropReleases(ds))
      ensures Sweeps(w.vis)
    {
      hide Image, Good, InStep, Allowed, Inv, Needed, Retained;
      InvHasAllowlist(w);
      QuietIsSynced(w);
      QuiescentNeeds(w.vis);
      forall ds | ds <= w.vis.releases - Retained(w.vis) ensures Allowed(w, DropReleases(ds)) {
        forall d | d in ds ensures d !in Needed(w.vis) && d !in Needed(w.dur) {
          assert MayPrune(w.dur, d);
        }
        MayPruneEverywhere(w, ds);
      }
    }

    lemma RetainedAreStored(w: World)
      requires Inv(w) && (w.vis.journal.Some? ==> Terminal(w.vis.journal.value.phase))
      ensures Retained(w.vis) <= w.vis.releases
    {
      VisibleIsImage(w);
    }

    /** Snapshot cleanup: backups the journal does not reference go.  Whole snapshots are removed from the directory
        that also holds the journal, so the fsync that ends their removal makes the journal durable as well. */
    method ForgetBackups(ids: set<BackupId>, whole: bool) returns (r: Status)
      requires Valid()
      requires forall id :: id in ids ==> MayForget(files, id) && MayForget(Disk(), id)
      requires aim.goal.Some? ==> Sweeps(files)
      modifies this
      ensures Valid() && old(steps) <= steps && !r.Refused? && (calm ==> r.Done?)
      ensures CleanedUp(old(Now()), Now()) && SameUnits(old(active), old(enabled), old(ready))
      ensures r.Done? ==> files.backups == old(files).backups - ids
      ensures r.Done? && whole ==> steps == old(steps) + Forget(ids, Cleaned)
      ensures r.Done? && ids != {} ==> Disk().backups == files.backups
      ensures !whole ==> Disk().journal == old(Disk()).journal
    {
      hide Valid, Inv, Converges, Legal, After, Moves, Image, Allowed, MayForget, Sweeps;
      if ids == {} { return Done; }
      var fate := Fate();
      // a removal that fails may have removed some of the backups
      var gone: set<BackupId> := *;
      gone := if fate.Done? then ids else gone * ids;
      MayForgetEverywhere(Now(), gone);
      RemoveBackups(gone);
      if !fate.Done? { return fate; }
      r := Fate();
      if !r.Done? { return; }
      if whole {
        SyncRoot();
      } else {
        SyncBackups();
      }
    }

    method SyncRoot()
      requires Valid()
      modifies this
      ensures Valid() && steps == old(steps) + [SyncStateRoot]
      ensures files == old(files) && disk == old(disk).(journal := files.journal, backups := files.backups)
      ensures SameUnits(old(active), old(enabled), old(ready))
    {
      hide Inv, Converges, Legal, After, Allowed, OnCourse, Outcome;
      SyncStays(SyncStateRoot);
      Record(SyncStateRoot);
      disk := disk.(journal := files.journal, backups := files.backups);
    }

    method RemoveBackups(gone: set<BackupId>)
      requires Valid() && Allowed(Now(), DropBackups(gone)) && (aim.goal.Some? ==> Sweeps(files))
      modifies this
      ensures Valid() && steps == old(steps) + [DropBackups(gone)]
      ensures files == old(files).(backups := old(files).backups - gone) && disk == old(disk)
      ensures SameUnits(old(active), old(enabled), old(ready))
    {
      hide Inv, Converges, Legal, After, Moves, Image, Allowed, RecoveryStep, Sweeps;
      CleanupStays(DropBackups(gone));
      Record(DropBackups(gone));
      files := files.(backups := files.backups - gone);
    }

    /** One backup file, not yet fsynced. */
    method BackUp(id: BackupId, content: Bytes)
      requires Valid() && id !in files.backups
      requires aim.goal == None
      modifies this
      ensures Valid() && old(steps) <= steps
      ensures files == old(files).(backups := old(files).backups[id := content]) && disk == old(disk)
      ensures SameUnits(old(active), old(enabled), old(ready))
    {
      hide Inv, Converges, Legal, After, Moves, Image;
      Record(PutBackup(id, content));
      files := files.(backups := files.backups[id := content]);
    }

    method SyncBackups()
      requires Valid()
      modifies this
      ensures Valid() && steps == old(steps) + [SyncSnapshot]
      ensures files == old(files) && disk == old(disk).(backups := files.backups)
      ensures SameUnits(old(active), old(enabled), old(ready))
    {
      hide Inv, Converges, Legal, After, Allowed, OnCourse, Outcome;
      SyncStays(SyncSnapshot);
      Record(SyncSnapshot);
      disk := disk.(backups := files.backups);
    }

    // ---- host artifacts ----

    /** _verify_host_artifacts_exact. */
    method VerifyHostArtifactsExact(records: seq<HostRecord>) returns (ok: bool)
      ensures ok <==> HostMatches(records, files.host)
    {
      var index := 0;
      while index < |records|
        invariant 0 <= index <= |records|
        invariant forall i :: 0 <= i < index ==> At(files.host, records[i].path) == Recorded(records[i])
      {
        if At(files.host, records[index].path) != Recorded(records[index]) { return false; }
        index := index + 1;
      }
      return true;
    }

    /** One recorded path is replaced, or removed, and its directory fsynced. */
    method RestoreHostArtifact(record: HostRecord) returns (r: Status)
      requires Valid() && Allowed(Now(), RestoreHost(record))
      modifies this
      ensures Valid() && old(steps) <= steps && !r.Refused? && (calm ==> r.Done?)
      ensures r.Done? ==>
                Now() == old(Now()).(vis := old(files).(host := Replace(old(files).host, record.path, Recorded(record))),
                                     dur := old(Disk()).(host := Replace(old(Disk()).host, record.path, Recorded(record))))
      ensures r.Done? ==> steps == old(steps) + [RestoreHost(record), SyncHost(record.path)]
    {
      hide Inv, Converges, Legal, After, Moves, Image, Allowed, RecoveryStep, Recorded;
      r := Fate();
      if !r.Done? { return; }
      ActionStays(RestoreHost(record));
      Record(RestoreHost(record));
      files := files.(host := Replace(files.host, record.path, Recorded(record)));
      r := Fate();
      if !r.Done? { return; }
      SyncStays(SyncHost(record.path));
      Record(SyncHost(record.path));
      disk := disk.(host := SyncPath(files.host, disk.host, record.path));
      r := Fate();
    }

    /** _restore_host_artifacts. */
    method RestoreHostArtifacts(j: Journal) returns (r: Status)
      requires Valid() && JournalSynced(Now()) && files.journal == Some(j) && j.phase.RestoringHost?
      modifies this
      ensures Valid() && old(steps) <= steps && !r.Refused? && (calm ==> r.Done?)
      ensures r.Done? ==> Now() == Hosted(old(Now()), j.hostArtifacts) && steps == old(steps) + Restores(j.hostArtifacts)
    {
      hide Valid, Disk, Inv, Converges, Legal, After, Moves, Image, Allowed, Good, Recorded, PathsUnique;
      var records := j.hostArtifacts;
      var index := 0;
      while index < |records|
        invariant 0 <= index <= |records|
        invariant Valid() && old(steps) <= steps
        invariant Now() == Hosted(old(Now()), records[..index]) && steps == old(steps) + Restores(records[..index])
      {
        assert records[..index + 1][..index] == records[..index];
        ValidHasInv();
        MayAct(Now(), j);
        r := RestoreHostArtifact(records[index]);
        if !r.Done? { return; }
        Joins(old(steps), Restores(records[..index]), [RestoreHost(records[index]), SyncHost(records[index].path)]);
        index := index + 1;
      }
      assert records[..|records|] == records;
      r := Raise();
    }

    // ---- rollback ----

    /** Stop everything the transaction may have started, then record it. */
    method QuiesceConsumers(j: Journal) returns (r: Status)
      requires Valid() && files.journal == Some(j)
      requires RollbackEntry(j) && EffectivePlan(j) != []
      modifies this
      ensures Valid() && old(steps) <= steps && !r.Refused? && (calm ==> r.Done?)
      ensures r.Done? ==> Now() == Quiesced(old(Now()), j) && steps == old(steps) + Quiesce(j)
    {
      hide Valid, Disk, Inv, Converges, Legal, After, Moves, Image, Allowed, Accepts, Advances, Undoes, Log, Quiesced, Quiesce,
           EffectivePlan, ManagedDaemonPlan;
      var stopping := j.(phase := StoppingConsumers);
      QuiesceSteps(Now(), j);
      QuiesceJoins(old(steps), j);
      r := UndoPhase(j, StoppingConsumers);
      if !r.Done? { return; }
      MayAct(Now(), stopping);
      r := StopConsumers(EffectivePlan(stopping), ManagedDaemonPlan(stopping) && stopping.daemonStarted);
      if !r.Done? { return; }
      r := Kill();
      if !r.Done? { return; }
      r := UndoPhase(stopping, ConsumersStopped);
    }

    static lemma QuiesceJoins(s: seq<Step>, j: Journal)
      requires EffectivePlan(j) != []
      ensures var stopping := j.(phase := StoppingConsumers);
              s + Log(stopping) + [StopUnits(EffectivePlan(stopping), ManagedDaemonPlan(stopping) && stopping.daemonStarted)]
              + Log(j.(phase := ConsumersStopped)) == s + Quiesce(j)
    {
      hide Log;
      assert EffectivePlan(j.(phase := StoppingConsumers)) == EffectivePlan(j);
    }

    /** `current` back to the baseline, then recorded. */
    method RestoreCurrent(j: Journal) returns (r: Status)
      requires Valid() && files.journal == Some(j) && !Stranded(Now(), j)
      requires j.phase.ConsumersStopped? || (RollbackEntry(j) && EffectivePlan(j) == [])
      modifies this
      ensures Valid() && old(steps) <= steps && !r.Refused? && (calm ==> r.Done?)
      ensures r.Done? ==> JournalSynced(Now()) && Now() == CurrentBack(old(Now()), j)
      ensures r.Done? ==> steps == old(steps) + Log(j.(phase := RollingBackCurrent)) + Pick(old(files), Current, j.currentBefore)
                                   + Log(j.(phase := RollingBackPrevious))
    {
      hide Valid, Disk, Inv, Converges, Legal, After, Moves, Image, Allowed, Accepts, Advances, Undoes, Log, MaySelect, CurrentBack;
      ValidHasInv();
      BaselineIsStored(Now(), j);
      ValidHasInv();
      CurrentBackSteps(Now(), j);
      r := UndoPhase(j, RollingBackCurrent);
      if !r.Done? { return; }
      r := SelectBack(Current, j.currentBefore);
      if !r.Done? { return; }
      r := UndoPhase(j.(phase := RollingBackCurrent), RollingBackPrevious);
    }

    /** Both selectors back to the baseline, `current` first, and both durable. */
    method RestoreSelectors(j: Journal) returns (r: Status)
      requires Valid() && files.journal == Some(j) && !Stranded(Now(), j)
      requires j.phase.ConsumersStopped? || (RollbackEntry(j) && EffectivePlan(j) == [])
      modifies this
      ensures Valid() && old(steps) <= steps && !r.Refused? && (calm ==> r.Done?)
      ensures r.Done? ==> Now() == Unselected(old(Now()), j) && steps == old(steps) + Unselect(old(files), j)
    {
      hide Valid, Disk, Inv, Converges, Legal, After, Moves, Image, Allowed, Accepts, Advances, Undoes, Log, Unselected, CurrentBack;
      ValidHasInv();
      BaselineIsStored(Now(), j);
      ValidHasInv();
      BothAreBack(Now(), j);
      ValidHasInv();
      CurrentBackKeepsReleases(Now(), j);
      r := RestoreCurrent(j);
      if !r.Done? { return; }
      r := SelectBack(Previous, j.previousBefore);
      UnselectJoins(old(steps), old(files), j);
    }

    static lemma UnselectJoins(s: seq<Step>, f: Files, j: Journal)
      ensures s + Unselect(f, j)
              == s + Log(j.(phase := RollingBackCurrent)) + Pick(f, Current, j.currentBefore)
                 + Log(j.(phase := RollingBackPrevious)) + Pick(f, Previous, j.previousBefore)
    {
      hide Log, Pick;
    }

    static lemma CurrentBackKeepsReleases(w: World, j: Journal)
      ensures CurrentBack(w, j).vis.releases == w.vis.releases
    {
    }

    lemma BaselineIsStored(w: World, j: Journal)
      requires Inv(w) && w.vis.journal == Some(j) && Undoable(j.phase)
      ensures Stored(w.vis.releases, j.currentBefore) && Stored(w.vis.releases, j.previousBefore)
    {
      InvHasAllowlist(w);
    }

    /** The native boundary, through the snapshotted helper; both backups are present. */
    method RestoreNativeBoundary(j: Journal) returns (r: Status)
      requires Valid() && Settled(Now()) && files.journal == Some(j)
      requires j.phase.RollingBackPrevious? && AtBaseline(j, files.current, files.previous) && NativeRestorePlanned(j)
      modifies this
      ensures Valid() && old(steps) <= steps && !r.Refused? && (calm ==> r.Done?)
      ensures r.Done? ==> Now() == Logged(old(Now()), j.(phase := NativeRestored)) && steps == old(steps) + RestoreBoundary(j)
    {
      hide Valid, Disk, Inv, Converges, Legal, After, Moves, Image, Allowed, Accepts, Advances, Undoes, Log, NativeRestorePlanned;
      ValidHasInv();
      BoundarySteps(Now(), j);
      BoundaryJoins(old(steps), j);
      r := UndoPhase(j, RestoringNative);
      if !r.Done? { return; }
      var restoring := j.(phase := RestoringNative);
      r := LoadNativeBackups(restoring);
      if !r.Done? { return; }
      r := UseHelperOnce(restoring);
      if !r.Done? { return; }
      r := UndoPhase(restoring, NativeRestored);
    }

    /** The boundary phase begins and ends on both disks, and there is a boundary to restore. */
    static lemma BoundarySteps(w: World, j: Journal)
      requires Inv(w) && Settled(w) && w.vis.journal == Some(j)
      requires j.phase.RollingBackPrevious? && AtBaseline(j, w.vis.current, w.vis.previous) && NativeRestorePlanned(j)
      ensures var restoring, restored := j.(phase := RestoringNative), j.(phase := NativeRestored);
              && j.native.Some?
              && Undoes(w.vis, j, restoring) && Undoes(w.dur, j, restoring)
              && (forall f :: Undoes(f, restoring, restored))
              && Logged(Logged(w, restoring), restored) == Logged(w, restored)
    {
      hide Inv, NativeRestorePlanned;
      NativeIsThere(w, j);
    }

    static lemma BoundaryJoins(s: seq<Step>, j: Journal)
      requires NativeRestorePlanned(j)
      ensures s + Log(j.(phase := RestoringNative)) + UseHelper(j.native) + Log(j.(phase := NativeRestored)) == s + RestoreBoundary(j)
    {
      hide Log, UseHelper;
    }

    /** The callback that restores the boundary from both backups; when it raises it may still have restored it. */
    method UseHelperOnce(j: Journal) returns (r: Status)
      requires Valid() && JournalSynced(Now()) && files.journal == Some(j) && j.phase.RestoringNative? && j.native.Some?
      modifies this
      ensures Valid() && old(steps) <= steps && !r.Refused? && (calm ==> r.Done?)
      ensures Now() == old(Now())
      ensures r.Done? ==> steps == old(steps) + UseHelper(j.native)
    {
      hide Inv, Converges, Legal, After, Moves, Image, Allowed;
      r := Raise();
      if !r.Done? { return; }
      MayAct(Now(), j);
      ActionStays(RestoreNative(j.native.value));
      Record(RestoreNative(j.native.value));
      r := Kill();
    }

    /** _load_native_boundary_backup for the snapshot and the helper. */
    method LoadNativeBackups(j: Journal) returns (r: Status)
      requires Valid() && files.journal == Some(j)
      ensures r.Done?
    {
      InvHasAllowlist(Now());
      if j.native.None? { return Done; }
      var n := j.native.value;
      var ok := JournalValidator.LoadBackup(files.backups, n.snapshot, n.sha);
      if !ok { return Refused; }
      ok := JournalValidator.LoadBackup(files.backups, n.helper, n.helperSha);
      return if ok then Done else Refused;
    }

    /** Host artifacts, once the selectors and the boundary are back. */
    method RestoreHostPhase(j: Journal) returns (r: Status)
      requires Valid() && Settled(Now()) && files.journal == Some(j)
      requires HostRestorePlanned(j)
      requires j.phase.NativeRestored? || (j.phase.RollingBackPrevious? && !NativeRestorePlanned(j)
                                           && AtBaseline(j, files.current, files.previous))
      modifies this
      ensures Valid() && old(steps) <= steps && !r.Refused? && (calm ==> r.Done?)
      ensures r.Done? ==> Now() == Hosted(Logged(old(Now()), j.(phase := HostRestored)), j.hostArtifacts)
                          && steps == old(steps) + RestoreHosts(j)
    {
      hide Valid, Disk, Inv, Converges, Legal, After, Moves, Image, Allowed, Accepts, Advances, Undoes, Log, Restores, Hosted,
           NativeRestorePlanned, HostRestorePlanned;
      ValidHasInv();
      HostPhaseSteps(Now(), j);
      RestoreHostsJoins(old(steps), j);
      r := UndoPhase(j, RestoringHost);
      if !r.Done? { return; }
      var restoring := j.(phase := RestoringHost);
      r := RestoreHostArtifacts(restoring);
      if !r.Done? { return; }
      r := UndoPhase(restoring, HostRestored);
    }

    /** The host phase begins on both disks, and ends on both once every recorded path is restored. */
    static lemma HostPhaseSteps(w: World, j: Journal)
      requires Inv(w) && Settled(w) && w.vis.journal == Some(j) && HostRestorePlanned(j)
      requires j.phase.NativeRestored?
               || (j.phase.RollingBackPrevious? && !NativeRestorePlanned(j) && AtBaseline(j, w.vis.current, w.vis.previous))
      ensures var restoring := j.(phase := RestoringHost);
              var x := Hosted(Logged(w, restoring), j.hostArtifacts);
              && Undoes(w.vis, j, restoring) && Undoes(w.dur, j, restoring)
              && x.vis.journal == Some(restoring)
              && Undoes(x.vis, restoring, j.(phase := HostRestored)) && Undoes(x.dur, restoring, j.(phase := HostRestored))
              && Logged(x, j.(phase := HostRestored)) == Hosted(Logged(w, j.(phase := HostRestored)), j.hostArtifacts)
    {
      hide Inv, Undoes, HostMatches, PathsUnique, RestoreAll;
      var restoring := j.(phase := RestoringHost);
      UniqueRecords(w, j);
      UndoSteps(w.vis, j);
      UndoSteps(w.dur, j);
      RestoreAllAt(w.vis.host, j.hostArtifacts);
      RestoreAllAt(w.dur.host, j.hostArtifacts);
      UndoSteps(Hosted(Logged(w, restoring), j.hostArtifacts).vis, restoring);
      UndoSteps(Hosted(Logged(w, restoring), j.hostArtifacts).dur, restoring);
    }

    static lemma RestoreHostsJoins(s: seq<Step>, j: Journal)
      requires HostRestorePlanned(j)
      ensures s + Log(j.(phase := RestoringHost)) + Restores(j.hostArtifacts) + Log(j.(phase := HostRestored))
              == s + RestoreHosts(j)
    {
      hide Log, Restores;
    }

    /** _rollback_locked of an armed transaction: consumers first, then the selectors. */
    method UndoSelectors(j: Journal) returns (r: Status)
      requires Valid() && files.journal == Some(j) && RollbackEntry(j) && !Stranded(Now(), j)
      modifies this
      ensures Valid() && old(steps) <= steps && !r.Refused? && (calm ==> r.Done?)
      ensures r.Done? ==> Settled(Now()) && Disk().host == old(Disk()).host
                          && files == old(files).(journal := Some(j.(phase := RollingBackPrevious)),
                                                  current := j.currentBefore, previous := j.previousBefore)
      ensures r.Done? ==> SameUnits(old(active) - UnitSet(EffectivePlan(j)), old(enabled), old(ready) - UnitSet(EffectivePlan(j)))
      ensures r.Done? ==> steps == old(steps) + (Quiesce(j) + Unselect(old(files), j))
    {
      hide Valid, Disk, Inv, Converges, Legal, After, Moves, Image, Allowed, Accepts, Advances, Undoes, Log, Pick, EffectivePlan, Unselect;
      ValidHasInv();
      InvHasAllowlist(Now());
      if EffectivePlan(j) != [] {
        r := QuiesceConsumers(j);
        if !r.Done? { return; }
        SameUnselect(old(files), j, files, j.(phase := ConsumersStopped));
        r := RestoreSelectors(j.(phase := ConsumersStopped));
        Joins(old(steps), Quiesce(j), Unselect(old(files), j));
      } else {
        r := RestoreSelectors(j);
        assert Quiesce(j) + Unselect(old(files), j) == Unselect(old(files), j);
      }
    }

    /** _rollback_locked: the native boundary, where the plan owns it. */
    method UndoBoundary(j: Journal) returns (r: Status, t: Journal)
      requires Valid() && Settled(Now()) && files.journal == Some(j)
      requires j.phase.RollingBackPrevious? && AtBaseline(j, files.current, files.previous)
      modifies this
      ensures Valid() && old(steps) <= steps && !r.Refused? && (calm ==> r.Done?)
      ensures r.Done? ==> t == (if NativeRestorePlanned(j) then j.(phase := NativeRestored) else j)
                          && Now() == Logged(old(Now()), t) && steps == old(steps) + RestoreBoundary(j)
    {
      hide Valid, Disk, Inv, Converges, Legal, After, Moves, Image, Allowed, Accepts, Advances, Undoes, Log;
      t := j;
      r := Done;
      if NativeRestorePlanned(j) {
        r := RestoreNativeBoundary(t);
        t := j.(phase := NativeRestored);
      }
    }

    /** _rollback_locked: the native boundary and the host, where they are part of the plan. */
    method UndoHost(j: Journal) returns (r: Status, t: Journal)
      requires Valid() && Settled(Now()) && files.journal == Some(j)
      requires j.phase.RollingBackPrevious? && AtBaseline(j, files.current, files.previous)
      modifies this
      ensures Valid() && old(steps) <= steps && !r.Refused? && (calm ==> r.Done?)
      ensures r.Done? ==> Settled(Now()) && t == Restored(j) && RestorationDone(files, t)
                          && files == Undone(old(files), j).(journal := Some(t))
                          && Disk().host == Undone(old(Disk()), j).host
      ensures r.Done? ==> SameUnits(old(active), old(enabled), old(ready))
      ensures r.Done? ==> steps == old(steps) + (RestoreBoundary(j) + RestoreHosts(j))
    {
      hide Valid, Disk, Inv, Converges, Legal, After, Moves, Image, Allowed, Accepts, Advances, Undoes, Log, RestoreBoundary, RestoreHosts,
           HostRestorePlanned, NativeRestorePlanned, RestorationDone, Undone, Restored;
      r, t := UndoBoundary(j);
      if !r.Done? { return; }
      SameRestoration(j, t);
      SameHostPlan(j, t);
      Joins(old(steps), RestoreBoundary(j), RestoreHosts(j));
      if HostRestorePlanned(t) {
        r := RestoreHostPhase(t);
        t := j.(phase := HostRestored);
      } else {
        NothingToRestore(j);
      }
      ValidHasInv();
      HostIsUndone(old(Now()), Now(), j);
    }

    static lemma HostIsUndone(was: World, now: World, j: Journal)
      requires was.vis.journal == Some(j) && j.phase.RollingBackPrevious? && AtBaseline(j, was.vis.current, was.vis.previous)
      ensures now == (if HostRestorePlanned(j) then Hosted(Logged(was, j.(phase := HostRestored)), j.hostArtifacts) else was)
              ==>
                && now.vis == Undone(was.vis, j).(journal := Some(Restored(j))) && RestorationDone(now.vis, Restored(j))
                && now.dur.host == Undone(was.dur, j).host
      ensures Restored(j) == if HostRestorePlanned(j) then j.(phase := HostRestored) else j
    {
      hide RestoreAll, ManagedDaemonPlan;
    }

    static lemma NothingToRestore(j: Journal)
      requires !HostRestorePlanned(j)
      ensures !NativeRestorePlanned(j) && RestoreHosts(j) == []
    {
    }

    /** _rollback_locked of an armed transaction, up to the restored host. */
    method UndoArmed(j: Journal) returns (r: Status, t: Journal)
      requires Valid() && files.journal == Some(j) && RollbackEntry(j) && !Stranded(Now(), j)
      modifies this
      ensures Valid() && old(steps) <= steps && !r.Refused? && (calm ==> r.Done?)
      ensures r.Done? ==> Settled(Now()) && t == Restored(j) && RestorationDone(files, t)
                          && files == Undone(old(files), j).(journal := Some(t))
      ensures r.Done? && HostSettles(old(Now())) ==> files.host == Disk().host
      ensures r.Done? ==> SameUnits(old(active) - UnitSet(EffectivePlan(j)), old(enabled), old(ready) - UnitSet(EffectivePlan(j)))
      ensures r.Done? ==> steps == old(steps) + Rewind(old(files), j)
    {
      hide Valid, Disk, Inv, Converges, Legal, After, Moves, Image, Allowed, Accepts, Advances, Undoes, RestorationDone, Quiesce, Unselect,
           RestoreBoundary, RestoreHosts, EffectivePlan, HostRestorePlanned, NativeRestorePlanned, RestoreAll, HostSettles;
      t := j;
      var rolling := j.(phase := RollingBackPrevious);
      SameRestoration(j, rolling);
      ValidHasInv();
      if HostSettles(Now()) { HostsSettle(Now(), j); }
      r := UndoSelectors(j);
      if !r.Done? { return; }
      SameHostPlan(j, rolling);
      r, t := UndoHost(rolling);
      RewindJoins(old(steps), old(files), j);
    }

    static lemma SameHostPlan(j: Journal, t: Journal)
      requires t == j.(phase := t.phase)
      ensures HostRestorePlanned(t) == HostRestorePlanned(j) && NativeRestorePlanned(t) == NativeRestorePlanned(j)
      ensures NativeRestorePlanned(j) ==> HostRestorePlanned(j)
    {
    }

    static lemma RewindJoins(s: seq<Step>, f: Files, j: Journal)
      ensures s + (Quiesce(j) + Unselect(f, j)) + (RestoreBoundary(j) + RestoreHosts(j)) == s + Rewind(f, j)
    {
      hide Quiesce, Unselect, RestoreBoundary, RestoreHosts;
    }

    /** Visible and durable host agree, off the recorded paths if a rollback is still to restore those. */
    static ghost predicate HostSettles(w: World) {
      match w.vis.journal
      case None => w.vis.host == w.dur.host
      case Some(j) =>
        forall p :: (RollbackEntry(j) && HostRestorePlanned(j) && Names(j.hostArtifacts, p))
                    || At(w.vis.host, p) == At(w.dur.host, p)
    }

    /** Once every recorded path is restored the hosts agree. */
    static lemma HostsSettle(w: World, j: Journal)
      requires Inv(w) && w.vis.journal == Some(j) && RollbackEntry(j) && HostSettles(w)
      ensures Undone(w.vis, j).host == Undone(w.dur, j).host
    {
      hide Inv;
      UniqueRecords(w, j);
      RestoreAllAt(w.vis.host, j.hostArtifacts);
      RestoreAllAt(w.dur.host, j.hostArtifacts);
      forall p ensures At(Undone(w.vis, j).host, p) == At(Undone(w.dur, j).host, p) {
        if Names(j.hostArtifacts, p) {
          var i :| 0 <= i < |j.hostArtifacts| && j.hostArtifacts[i].path == p;
        }
      }
      SameHost(Undone(w.vis, j).host, Undone(w.dur, j).host);
    }

    static lemma QuietHostsSettle(w: World)
      requires HostSettles(w) && (w.vis.journal.Some? ==> !RollbackEntry(w.vis.journal.value))
      ensures w.vis.host == w.dur.host
    {
      SameHost(w.vis.host, w.dur.host);
    }

    /** The journal write that concludes a rollback. */
    method Conclude(n: Journal) returns (r: Status)
      requires Valid() && SelectorsSynced(Now()) && files.journal.Some?
      requires Concludes(files, files.journal.value, n) && UnitEvidence(Now(), n)
      requires HandsOver(n) ==> JournalSynced(Now())
      requires aim.goal.Some? ==> !files.journal.value.phase.StartingBaseline?
      modifies this
      ensures Valid() && old(steps) <= steps && !r.Refused? && (calm ==> r.Done?)
      ensures r.Done? ==> Settled(Now()) && Now() == Logged(old(Now()), n) && steps == old(steps) + Log(n)
    {
      hide Inv, Converges, Legal, After, Accepts, Advances, Concludes, Log;
      ConclusionOnSettled(Now(), files.journal.value, n);
      ConclusionAdvances(files, files.journal.value, n);
      ConclusionAdvances(Disk(), files.journal.value, n);
      if aim.goal.Some? { ConclusionIsBackward(files, files.journal.value, n); }
      r := Rewrite(n);
    }

    static lemma ConclusionIsBackward(f: Files, j: Journal, n: Journal)
      requires Concludes(f, j, n) && !j.phase.StartingBaseline?
      ensures Backward(j, n)
    {
    }

    // ---- terminal housekeeping ----

    /** _verify_terminal: never refuses a reachable disk. */
    method VerifyTerminal(j: Journal) returns (r: Status)
      requires Valid() && files.journal == Some(j) && Terminal(j.phase)
      ensures !r.Refused? && (calm ==> r.Done?)
    {
      hide Valid, Disk, Inv, Converges, Legal, After, Good;
      ValidHasInv();
      InvHasAllowlist(Now());
      SelectorsOfJournal(files, j);
      if j.phase.Committed? && !AtCandidate(j, files.current, files.previous) { return Refused; }
      if j.phase.RolledBack? && !AtBaseline(j, files.current, files.previous) { return Refused; }
      if j.phase.RolledBack? && j.restored {
        r := VerifyRestoredHost(j);
      } else {
        r := Done;
      }
    }

    /** _verify_restored_host_artifacts and, where the plan owns the daemon, _verify_native_boundary. */
    method VerifyRestoredHost(j: Journal) returns (r: Status)
      requires Valid() && files.journal == Some(j)
      requires j.restored
      ensures !r.Refused? && (calm ==> r.Done?)
    {
      InvHasAllowlist(Now());
      var ok := VerifyHostArtifactsExact(j.hostArtifacts);
      if !ok { return Refused; }
      r := Fate();
      if r.Done? && Daemon in j.plan {
        r := LoadNativeBackups(j);
        r := Fate();
      }
    }

    /** _retire_terminal_rollback_authority. */
    method RetireTerminalRollbackAuthority(j: Journal) returns (r: Status, clean: bool)
      requires Valid() && files.journal == Some(j) && Terminal(j.phase)
      modifies this, aim`trusting
      ensures aim.trusting ==> old(aim.trusting) || Unsafe(old(Now()), j)
      ensures Valid() && old(steps) <= steps && !r.Refused? && (calm ==> r.Done? && clean)
      ensures r.Done? ==> Quiet(files) && CleanupHarmless(Now())
                          && files == old(files).(journal := Some(Retire(j)), backups := files.backups)
                          && (Disk() == old(Disk()).(journal := Disk().journal, backups := Disk().backups) || Disk() == files)
      ensures r.Done? && (j.retired ==> JournalSynced(old(Now()))) ==> JournalSynced(Now())
      ensures r.Done? ==> files.backups.Keys <= old(files).backups.Keys
      ensures r.Done? && clean ==> files.backups == old(files).backups - Own(old(files), j.id)
      ensures r.Done? && clean ==> steps == old(steps) + ((if j.retired then [] else Log(Retire(j)))
                                                          + Forget(Own(old(files), j.id), Cleaned))
      ensures r.Done? ==> SameUnits(old(active), old(enabled), old(ready))
    {
      hide Valid, Inv, Converges, Legal, After, Moves, Image, Allowed, Accepts, Advances, CleanupHarmless, Log, Forget, Good;
      clean := true;
      Trust(Unsafe(Now(), j));
      SyncedIsSafe(old(Now()), j);
      r := CompactTerminal(j);
      if !r.Done? { return; }
      r, clean := ForgetOwn(j);
      Joins(old(steps), if j.retired then [] else Log(Retire(j)), Forget(Own(old(files), j.id), Cleaned));
    }

    static lemma SyncedIsSafe(w: World, j: Journal)
      ensures !Unsafe(Synced(w), j)
    {
    }

    /** The compact record, durable before the first byte goes. */
    method CompactTerminal(j: Journal) returns (r: Status)
      requires Valid() && files.journal == Some(j) && Terminal(j.phase) && !Unsafe(Now(), j)
      modifies this
      ensures Valid() && old(steps) <= steps && !r.Refused? && (calm ==> r.Done?)
      ensures r.Done? ==> Quiet(files) && CleanupHarmless(Now()) && (!j.retired ==> JournalSynced(Now()))
      ensures r.Done? ==> Now() == if j.retired then old(Now()) else Logged(old(Now()), Retire(j))
      ensures r.Done? ==> files.journal == Some(Retire(j)) && (j.retired ==> Retire(j) == j)
      ensures r.Done? ==> steps == old(steps) + if j.retired then [] else Log(Retire(j))
    {
      hide Valid, Disk, Inv, Converges, Legal, After, Moves, Image, Allowed, Accepts, Advances, CleanupHarmless, Log;
      ValidHasInv();
      InvHasAllowlist(Now());
      if j.retired {
        RetiredIsQuiet(files, j);
        RetiredIsCompact(files, j);
        if JournalSynced(Now()) { QuietIsHarmless(Now()); }
        return Done;
      }
      r := VerifyTerminal(j);
      if !r.Done? { return; }
      ConclusionSteps(files, j);
      ConclusionSteps(Disk(), j);
      r := Rewrite(Retire(j));
      if !r.Done? { return; }
      ValidHasInv();
      QuietIsHarmless(Now());
      r := Kill();
    }

    /** The snapshot of a retired transaction; a failure is deferred. */
    method ForgetOwn(j: Journal) returns (r: Status, clean: bool)
      requires Valid() && Quiet(files) && CleanupHarmless(Now())
      modifies this
      ensures Valid() && old(steps) <= steps && (r.Done? || r.Killed?) && (calm ==> r.Done? && clean)
      ensures Quiet(files) && CleanupHarmless(Now()) && CleanedUp(old(Now()), Now())
      ensures r.Done? && clean ==> files.backups == old(files).backups - Own(old(files), j.id)
      ensures r.Done? && clean ==> steps == old(steps) + Forget(Own(old(files), j.id), Cleaned)
      ensures SameUnits(old(active), old(enabled), old(ready))
    {
      hide Valid, Disk, Inv, Converges, Legal, After, Moves, Image, Allowed, CleanupHarmless, Forget, MayForget, Sweeps;
      clean := true;
      HarmlessForgets(Now());
      TerminalSweeps(files);
      r := ForgetBackups(Own(files, j.id), true);
      ValidHasInv();
      HarmlessStays(old(Now()), Now());
      if r.Failed? { r, clean := Done, false; }
    }

    /** The terminal journal `j` may be lost, and with it what its cleanup removes. */
    static predicate Unsafe(w: World, j: Journal) {
      j.retired && !JournalSynced(w) && !CleanupHarmless(w)
    }

    /** The cleanup may remove every backup that is there. */
    static lemma HarmlessForgets(w: World)
      requires Quiet(w.vis) && CleanupHarmless(w)
      ensures forall id :: id in w.vis.backups ==> MayForget(w.vis, id) && MayForget(w.dur, id)
    {
      CompactForgets(w.vis);
    }

    static lemma QuietSweeps(f: Files)
      requires f.journal.Some? ==> Terminal(f.journal.value.phase)
      ensures Sweeps(f)
    {
    }

    static lemma RetiredIsCompact(f: Files, j: Journal)
      requires Good(f) && f.journal == Some(j) && j.retired
      ensures Retire(j) == j
    {
    }

    /** _best_effort_terminal_housekeeping and _best_effort_unjournaled_housekeeping: failures are deferred. */
    method Housekeeping() returns (r: Status, clean: bool)
      requires Valid() && Quiet(files) && CleanupHarmless(Now())
      modifies this
      ensures Valid() && old(steps) <= steps && (r.Done? || r.Killed?) && (calm ==> r.Done? && clean)
      ensures CleanupHarmless(Now()) && Leaves(files, Swept(old(files)))
      ensures Now() == old(Now()).(vis := files, dur := old(Disk()).(releases := Disk().releases, backups := Disk().backups,
                                                                   journal := Disk().journal))
      ensures JournalSynced(old(Now())) ==> JournalSynced(Now())
      ensures r.Done? && clean ==>
                files == old(files).(releases := old(files).releases * Retained(old(files)),
                                     backups := old(files).backups - Strays(old(files)))
      ensures r.Done? && clean ==> steps == old(steps) + (Forget(Strays(old(files)), Cleaned) + Prune(old(files)))
    {
      hide Valid, Disk, Inv, Converges, Legal, After, Moves, Image, Allowed, Accepts, Advances, CleanupHarmless, Quiet, Forget, Prune,
           MayForget, Sweeps;
      clean := true;
      ValidHasInv();
      HarmlessForgets(Now());
      TerminalSweeps(files);
      r := ForgetBackups(Strays(files), true);
      ValidHasInv();
      HarmlessStays(old(Now()), Now());
      if r.Killed? { return; }
      if r.Failed? { clean := false; }
      SamePrune(old(files), files);
      ValidHasInv();
      RetainedAreStored(Now());
      r := PruneReleases(Retained(files));
      Joins(old(steps), Forget(Strays(old(files)), Cleaned), Prune(old(files)));
      if r.Failed? { r, clean := Done, false; }
    }

    static lemma TerminalSweeps(f: Files)
      requires Quiet(f)
      ensures Sweeps(f)
    {
      QuietSweeps(f);
    }

    /** The snapshots no journal names. */
    static function Strays(f: Files): set<BackupId> {
      if f.journal.None? then f.backups.Keys else Orphans(f, f.journal.value.id)
    }

    /** Retirement and housekeeping of a terminal journal. */
    method FinishTerminal(j: Journal, verify: bool) returns (r: Status, clean: bool)
      requires Valid() && files.journal == Some(j) && Terminal(j.phase)
      modifies this, aim`trusting
      ensures aim.trusting ==> old(aim.trusting) || Unsafe(old(Now()), j)
      ensures Valid() && old(steps) <= steps && !r.Refused? && (calm ==> r.Done? && clean)
      ensures r.Done? ==> SelectorsSynced(Now()) && CleanupHarmless(Now())
                          && Leaves(files, Swept(old(files).(journal := Some(Retire(j)))))
      ensures r.Done? && (j.retired ==> JournalSynced(old(Now()))) ==> Settled(Now())
      ensures r.Done? && clean ==> files == Swept(old(files).(journal := Some(Retire(j))))
      ensures r.Done? ==> Disk().host == old(Disk()).host || Disk().host == files.host
      ensures r.Done? ==> SameUnits(old(active), old(enabled), old(ready))
      ensures r.Done? && clean ==> steps == old(steps) + Finish(old(files), j, Cleaned, Cleaned)
    {
      hide Valid, Disk, Inv, Converges, Legal, After, Moves, Image, Allowed, Accepts, Advances, CleanupHarmless, Log, Forget, Prune,
           Finish, Swept, Leaves, Own, Quiet;
      r, clean := RetireTerminalRollbackAuthority(j);
      if !r.Done? { return; }
      if verify {
        r := VerifyTerminal(Retire(j));
        if !r.Done? { return; }
      }
      ghost var mid := files;
      var swept;
      r, swept := Housekeeping();
      if !r.Done? { return; }
      FinishLeaves(old(files), mid, files, j);
      if clean && swept {
        FinishJoins(old(steps), old(files), mid, j);
      }
      clean := clean && swept;
      ValidHasInv();
      StaysQuiet(mid, files);
      QuietIsSynced(Now());
    }

    static lemma StaysQuiet(f: Files, g: Files)
      requires Quiet(f) && Leaves(g, Swept(f))
      ensures Quiet(g)
    {
    }

    static lemma FinishLeaves(f: Files, mid: Files, g: Files, j: Journal)
      requires mid == f.(journal := Some(Retire(j)), backups := mid.backups) && Leaves(g, Swept(mid))
      ensures Leaves(g, Swept(f.(journal := Some(Retire(j))))) && g.host == mid.host && g.journal == mid.journal
      ensures mid.backups == f.backups - Own(f, j.id)
              && g == mid.(releases := mid.releases * Retained(mid), backups := mid.backups - Strays(mid)) ==>
                g == Swept(f.(journal := Some(Retire(j))))
    {
      if mid.backups == f.backups - Own(f, j.id) {
        assert mid.backups - Strays(mid) == map[];
      }
    }

    static lemma FinishJoins(s: seq<Step>, f: Files, mid: Files, j: Journal)
      requires mid == f.(journal := Some(Retire(j)), backups := f.backups - Own(f, j.id))
      ensures s + ((if j.retired then [] else Log(Retire(j))) + Forget(Own(f, j.id), Cleaned))
              + (Forget(Strays(mid), Cleaned) + Prune(mid)) == s + Finish(f, j, Cleaned, Cleaned)
    {
      hide Log, Forget;
      assert Strays(mid) == Orphans(f, j.id);
      assert Prune(mid) == Prune(f);
    }

    /** _queue_baseline_consumer_starts: exactly the consumers that were active before are queued, a daemon only under its
        marker; the disk stays as it is. */
    method QueueBaselineConsumerStarts(j: Journal) returns (r: Status)
      requires Valid() && files.journal == Some(j) && j.phase.StartingBaseline?
      modifies this
      ensures Valid() && old(steps) <= steps && !r.Refused? && (calm ==> r.Done?)
      ensures Now() == old(Now())
      ensures r.Done? ==> steps == old(steps) + BaselineStarts(j, j.activeBefore)
      ensures r.Done? ==> forall u :: StartUnit(u) in steps[|old(steps)|..] <==>
                                      u in j.activeBefore && (u.Daemon? ==> j.daemonStarted)
    {
      hide Valid, Disk, Inv, Converges, Legal, After, Moves, Image, Accepts, Good, Fenced, Allowed;
      ValidHasInv();
      InvHasAllowlist(Now());
      SelectorsOfJournal(files, j);
      if !AtBaseline(j, files.current, files.previous) { return Refused; }
      if j.restored {
        r := VerifyRestoredHost(j);
        if !r.Done? { return; }
      }
      var index := 0;
      while index < |j.activeBefore|
        invariant 0 <= index <= |j.activeBefore|
        invariant Valid() && old(steps) <= steps && Now() == old(Now())
        invariant steps == old(steps) + BaselineStarts(j, j.activeBefore[..index])
      {
        var unit := j.activeBefore[index];
        assert j.activeBefore[..index + 1][..index] == j.activeBefore[..index];
        ghost var queued := if Fenced(j, unit) then [StartUnit(unit)] else [];
        r := StartIfOwed(j, unit);
        if !r.Done? { return; }
        Joins(old(steps), BaselineStarts(j, j.activeBefore[..index]), queued);
        index := index + 1;
      }
      assert j.activeBefore[..|j.activeBefore|] == j.activeBefore;
      FencedAreStarted(j, j.activeBefore);
      ConsumersOfJournal(files, j);
      return Done;
    }

    /** One consumer that was active before; a daemon that was never taken over is left alone. */
    method StartIfOwed(j: Journal, unit: Unit) returns (r: Status)
      requires Valid() && files.journal == Some(j) && j.phase.StartingBaseline? && unit in j.activeBefore
      modifies this
      ensures Valid() && old(steps) <= steps && !r.Refused? && (calm ==> r.Done?)
      ensures Now() == old(Now())
      ensures r.Done? ==> steps == old(steps) + if Fenced(j, unit) then [StartUnit(unit)] else []
    {
      hide Valid, Disk, Inv, Converges, Legal, After, Moves, Image, Accepts, Good;
      if unit.Daemon? && j.kind.Archive? && j.profile == Some(ManagedLocal) && !j.daemonStarted { return Done; }
      r := StartConsumer(unit);
    }

    /** _rollback_locked: refused exactly under durable commit intent. */
    method RollbackLocked(j: Journal) returns (r: Status, clean: bool)
      requires Valid() && files.journal == Some(j)
      modifies this, aim`trusting
      ensures aim.trusting ==> old(aim.trusting) || !Resumable(old(Now()))
      ensures Valid() && old(steps) <= steps
      ensures r.Refused? <==> CommitIntent(j)
      ensures r.Refused? ==> Now() == old(Now())
      ensures calm ==> r.Refused? || (r.Done? && clean)
      ensures r.Done? ==> Rested(old(Now()), Now())
      ensures r.Done? && clean ==> files == Outcome(old(files)) && steps == old(steps) + Script(old(files), Cleaned, Cleaned)
    {
      hide Valid, Disk, Inv, Converges, Legal, After, Moves, Image, Allowed, Accepts, Advances, Undoes, Concludes, Outcome, HostMatches,
           CleanupHarmless, Finish, BaselineStarts, Stranded, Rested, ReconcileScript.Rollback, Log;
      clean := true;
      if CommitIntent(j) { return Refused, clean; }
      ValidHasInv();
      InvHasAllowlist(Now());
      ValidHasInv();
      LiveShape(Now(), j);
      if j.phase.RolledBack? {
        OutcomeOfTerminal(files, j);
        r, clean := FinishTerminal(j, true);
        ValidHasInv();
        if r.Done? { TerminalRests(old(Now()), Now(), j); }
      } else if j.phase.StartingBaseline? {
        PendingIsOutcome(files);
        r := QueueBaselineConsumerStarts(j);
        ValidHasInv();
        PendingRests(Now());
      } else {
        SelectorsBelong(files, j);
        var belong := AssertSelectorsBelong(j, true);
        if !belong { assert false; }
        if !j.armed {
          r, clean := RollbackUnarmed(j);
        } else {
          r, clean := RollbackArmed(j);
        }
      }
    }

    /** What a reconcile that completed leaves: the recovered disk up to deferred garbage, its selectors durable and its
        cleanup harmless.  The journal is durable unless the reconcile had none to write. */
    static ghost predicate Rested(was: World, now: World) {
      && Leaves(now.vis, Outcome(was.vis)) && SelectorsSynced(now)
      && (JournalSynced(was) || (was.vis.journal.Some? && !Rests(was.vis.journal.value)) ==> JournalSynced(now))
      && (Quiet(now.vis) ==> CleanupHarmless(now))
      && (HostSettles(was) ==> now.vis.host == now.dur.host)
    }

    /** Journals a reconcile leaves as they are. */
    static predicate Rests(j: Journal) {
      j.retired || j.phase.StartingBaseline?
    }

    static lemma PendingRests(w: World)
      requires Inv(w) && w.vis.journal.Some? && w.vis.journal.value.phase.StartingBaseline?
      ensures Rested(w, w)
    {
      hide Inv;
      FixedIsSynced(w, w.vis.journal.value);
      PendingIsOutcome(w.vis);
      if HostSettles(w) { QuietHostsSettle(w); }
    }

    static lemma TerminalRests(was: World, now: World, j: Journal)
      requires was.vis.journal == Some(j) && Terminal(j.phase)
      requires SelectorsSynced(now) && CleanupHarmless(now) && (now.dur.host == was.dur.host || now.dur.host == now.vis.host)
      requires Leaves(now.vis, Swept(was.vis.(journal := Some(Retire(j)))))
      requires (j.retired ==> JournalSynced(was)) ==> Settled(now)
      ensures Rested(was, now)
    {
      hide CleanupHarmless, Retained;
      OutcomeOfTerminal(was.vis, j);
      if HostSettles(was) { QuietHostsSettle(was); }
    }

    /** An unarmed transaction still has its baseline selectors, so the source's "unarmed transaction
        changed selectors" refusal is unreachable. */
    method RollbackUnarmed(j: Journal) returns (r: Status, clean: bool)
      requires Valid() && files.journal == Some(j) && !j.armed && !Terminal(j.phase) && !CommitIntent(j)
      requires !j.phase.StartingBaseline?
      modifies this, aim`trusting
      ensures aim.trusting ==> old(aim.trusting)
      ensures Valid() && old(steps) <= steps && !r.Refused? && (calm ==> r.Done? && clean)
      ensures r.Done? ==> Rested(old(Now()), Now())
      ensures r.Done? ==> SameUnits(old(active), old(enabled), old(ready))
      ensures r.Done? && clean ==> files == Outcome(old(files)) && steps == old(steps) + Script(old(files), Cleaned, Cleaned)
    {
      hide Valid, Disk, Inv, Converges, Legal, After, Moves, Image, Allowed, Accepts, Advances, Undoes, Concludes, Outcome, HostMatches,
           CleanupHarmless, Finish, Good, Log, Rested, ReconcileScript.Rollback;
      clean := true;
      ValidHasInv();
      InvHasAllowlist(Now());
      ValidHasInv();
      LiveShape(Now(), j);
      SelectorsOfJournal(files, j);
      ValidHasInv();
      FixedIsSynced(Now(), j);
      if !AtBaseline(j, files.current, files.previous) { return Refused, clean; }
      ConclusionSteps(files, j);
      r := Conclude(UnarmedRollback(j));
      if !r.Done? { return; }
      r := Kill();
      if !r.Done? { return; }
      SameFinish(old(files), files, UnarmedRollback(j), Cleaned, Cleaned);
      r, clean := FinishTerminal(UnarmedRollback(j), false);
      ValidHasInv();
      if r.Done? { UnarmedRests(old(Now()), Now(), j); }
      Joins(old(steps), Log(UnarmedRollback(j)), Finish(old(files), UnarmedRollback(j), Cleaned, Cleaned));
    }

    static lemma UnarmedRests(was: World, now: World, j: Journal)
      requires was.vis.journal == Some(j) && !j.armed && (j.phase.Staging? || j.phase.Prepared?)
      requires Settled(now) && CleanupHarmless(now) && (now.dur.host == was.dur.host || now.dur.host == now.vis.host)
      requires Leaves(now.vis, Swept(was.vis.(journal := Some(Retire(UnarmedRollback(j))))))
      ensures Rested(was, now) && Outcome(was.vis) == Swept(was.vis.(journal := Some(Retire(UnarmedRollback(j)))))
    {
      hide CleanupHarmless, Retained;
      OutcomeOfUnarmed(was.vis, j);
      if HostSettles(was) { QuietHostsSettle(was); }
    }

    /** _rollback_locked of an armed transaction. */
    method RollbackArmed(j: Journal) returns (r: Status, clean: bool)
      requires Valid() && files.journal == Some(j) && RollbackEntry(j)
      modifies this, aim`trusting
      ensures aim.trusting ==> old(aim.trusting) || Stranded(old(Now()), j)
      ensures Valid() && old(steps) <= steps && !r.Refused? && (calm ==> r.Done? && clean)
      ensures r.Done? ==> Rested(old(Now()), Now())
      ensures r.Done? ==> var stopped := set u | u in j.plan && (u.Daemon? ==> j.daemonStarted);
                          SameUnits(old(active) - stopped, old(enabled), old(ready) - stopped)
      ensures r.Done? ==> forall u :: u in j.plan && (u.Daemon? ==> j.daemonStarted) ==> Stops(steps[|old(steps)|..], u)
      ensures r.Done? ==> forall u :: u in j.activeBefore && (u.Daemon? ==> j.daemonStarted) ==>
                                      StartUnit(u) in steps[|old(steps)|..]
      ensures r.Done? && Daemon in j.plan && j.daemonStarted ==> RestoresBoundary(steps[|old(steps)|..], j.native)
      ensures r.Done? && clean ==> files == Outcome(old(files)) && steps == old(steps) + Script(old(files), Cleaned, Cleaned)
    {
      hide Valid, Disk, Inv, Converges, Legal, After, Image, Outcome, Rested, EffectivePlan, Stranded, Script, Rewind, Good, Stops,
           RestoresBoundary, Fenced, BaselineStarts;
      ValidHasInv();
      InvHasAllowlist(Now());
      ConsumersOfJournal(files, j);
      Trust(Stranded(Now(), j));
      ghost var entry := Now();
      SyncedIsNotStranded(old(Now()), j);
      r, clean := UndoAndConclude(j);
      if r.Done? {
        RestedThrough(old(Now()), entry, Now());
        RewindServes(old(steps), steps, old(files), j);
      }
    }

    static lemma SyncedIsNotStranded(w: World, j: Journal)
      ensures !Stranded(Synced(w), j)
    {
    }

    /** The rollback of an armed transaction whose selectors are where they seem, or trusted to be. */
    method UndoAndConclude(j: Journal) returns (r: Status, clean: bool)
      requires Valid() && files.journal == Some(j) && RollbackEntry(j) && !Stranded(Now(), j)
      modifies this, aim`trusting
      ensures aim.trusting ==> old(aim.trusting)
      ensures Valid() && old(steps) <= steps && !r.Refused? && (calm ==> r.Done? && clean)
      ensures r.Done? ==> Rested(old(Now()), Now())
      ensures r.Done? ==> SameUnits(old(active) - UnitSet(EffectivePlan(j)), old(enabled), old(ready) - UnitSet(EffectivePlan(j)))
      ensures r.Done? ==> old(steps) + Rewind(old(files), j) <= steps
      ensures r.Done? ==> forall u :: u in j.activeBefore && (u.Daemon? ==> j.daemonStarted) ==>
                                      StartUnit(u) in steps[|old(steps)|..]
      ensures r.Done? && clean ==> files == Outcome(old(files)) && steps == old(steps) + Script(old(files), Cleaned, Cleaned)
    {
      hide Valid, Disk, Inv, Converges, Legal, After, Moves, Image, Allowed, Accepts, Advances, Undoes, Concludes, Outcome,
           HostMatches, RestorationDone, CleanupHarmless, Finish, Rewind, BaselineStarts, Log, Rested, HostSettles, EffectivePlan,
           StartingRecord, RollbackRecord, Stranded, Undone, Restored;
      clean := true;
      OutcomeOfArmed(files, j);
      SameRecords(j);
      var t;
      r, t := UndoArmed(j);
      if !r.Done? { return; }
      ConclusionSteps(files, t);
      ConclusionPhases(j, t);
      if j.activeBefore != [] {
        r := Conclude(StartingRecord(t));
        if !r.Done? { return; }
        r := Kill();
        if !r.Done? { return; }
        ghost var before := steps;
        r := QueueBaselineConsumerStarts(StartingRecord(t));
        TailGrows(old(steps), before, steps);
      } else {
        r := Conclude(RollbackRecord(t));
        if !r.Done? { return; }
        r := Kill();
        if !r.Done? { return; }
        SameFinish(Undone(old(files), j), files, RollbackRecord(j), Cleaned, Cleaned);
        r, clean := FinishTerminal(RollbackRecord(t), false);
      }
      if r.Done? { ArmedRests(old(Now()), Now(), j); }
      RollbackJoins(old(steps), old(files), j);
    }

    static lemma TailGrows(a: seq<Step>, b: seq<Step>, c: seq<Step>)
      requires a <= b <= c
      ensures forall s :: s in c[|b|..] ==> s in c[|a|..]
    {
      assert c[|a|..] == c[|a|..|b|] + c[|b|..];
    }

    static lemma ConclusionPhases(j: Journal, t: Journal)
      requires t == Restored(j)
      ensures !t.phase.StartingBaseline? && t.retired == j.retired
      ensures StartingRecord(t).phase.StartingBaseline? && StartingRecord(t).activeBefore == t.activeBefore == j.activeBefore
      ensures StartingRecord(t).daemonStarted == j.daemonStarted
      ensures RollbackRecord(t).phase.RolledBack? && (t.retired == RollbackRecord(t).retired)
    {
    }

    static lemma ArmedRests(was: World, now: World, j: Journal)
      requires was.vis.journal == Some(j) && RollbackEntry(j) && Settled(now)
      requires HostSettles(was) ==> now.vis.host == now.dur.host
      requires Quiet(now.vis) ==> CleanupHarmless(now)
      requires Leaves(now.vis, Outcome(was.vis))
      ensures Rested(was, now)
    {
    }

    static lemma RollbackJoins(s: seq<Step>, f: Files, j: Journal)
      requires f.journal == Some(j) && RollbackEntry(j)
      ensures j.activeBefore != [] ==>
                s + Rewind(f, j) + Log(StartingRecord(j)) + BaselineStarts(StartingRecord(j), j.activeBefore)
                == s + Script(f, Cleaned, Cleaned)
      ensures j.activeBefore == [] ==>
                s + Rewind(f, j) + Log(RollbackRecord(j)) + Finish(Undone(f, j), RollbackRecord(j), Cleaned, Cleaned)
                == s + Script(f, Cleaned, Cleaned)
    {
      hide Rewind, Log, BaselineStarts, Finish, Undone;
    }

    /** Everything the commit owes its consumers, then its terminal record. */
    method ServeConsumers(j: Journal) returns (r: Status)
      requires Valid() && files.journal == Some(j) && j.phase.Finalizing? && (j.enable != [] ==> JournalSynced(Now()))
      modifies this
      ensures Valid() && old(steps) <= steps && !r.Refused? && (calm ==> r.Done?)
      ensures r.Done? ==> JournalSynced(Now()) && files == old(files).(journal := Some(CommitRecord(j)))
                          && Disk() == old(Disk()).(journal := Some(CommitRecord(j)))
      ensures r.Done? ==> steps == old(steps) + Enables(j.enable) + CommitStarts(j) + Log(CommitRecord(j))
      ensures r.Done? ==> forall u :: u in j.enable ==> u in enabled
      ensures r.Done? ==> forall u :: u in j.start ==> StartUnit(u) in steps[|old(steps)|..]
    {
      hide Inv, Converges, Legal, After, Moves, Image, Allowed, Accepts, Advances, Log, Enables, CommitStarts;
      r := EnableConsumers(j);
      if !r.Done? { return; }
      r := StartCommittedConsumers(j);
      if !r.Done? { return; }
      ghost var started := steps;
      ConclusionSteps(files, j);
      ConclusionSteps(Disk(), j);
      r := Rewrite(CommitRecord(j));
      if !r.Done? { return; }
      r := Kill();
    }

    /** The finalization of a commit intent that is durable, or trusted to be. */
    method FinalizeIntent(j: Journal) returns (r: Status, clean: bool)
      requires Valid() && files.journal == Some(j) && j.phase.Finalizing? && (j.enable != [] ==> JournalSynced(Now()))
      requires SelectorsSynced(Now())
      modifies this, aim`trusting
      ensures aim.trusting ==> old(aim.trusting)
      ensures Valid() && old(steps) <= steps && !r.Refused? && (calm ==> r.Done? && clean)
      ensures r.Done? ==> Rested(old(Now()), Now())
      ensures r.Done? && clean ==> files == Outcome(old(files)) && steps == old(steps) + Script(old(files), Cleaned, Cleaned)
      ensures r.Done? ==> forall u :: u in j.enable ==> u in enabled
      ensures r.Done? ==> forall u :: u in j.start ==> StartUnit(u) in steps[|old(steps)|..]
    {
      hide Valid, Disk, Inv, Converges, Legal, After, Moves, Image, Allowed, Accepts, Advances, Undoes, Concludes, Outcome,
           HostMatches, CleanupHarmless, Finish, Good, Log, Rested, Enables, CommitStarts;
      clean := true;
      r := ServeConsumers(j);
      if !r.Done? { return; }
      ghost var served := steps;
      SameFinish(old(files), files, CommitRecord(j), Cleaned, Cleaned);
      r, clean := FinishTerminal(CommitRecord(j), false);
      if r.Done? { CommitRests(old(Now()), Now(), j); }
      FinalizationJoins(old(steps), old(files), j);
    }

    /** _finalize_commit_locked. */
    method FinalizeCommitLocked(j: Journal) returns (r: Status, clean: bool)
      requires Valid() && files.journal == Some(j) && j.phase.Finalizing?
      modifies this, aim`trusting
      ensures aim.trusting ==> old(aim.trusting) || (j.enable != [] && !JournalSynced(old(Now())))
      ensures Valid() && old(steps) <= steps && !r.Refused? && (calm ==> r.Done? && clean)
      ensures r.Done? ==> Rested(old(Now()), Now())
      ensures r.Done? && clean ==> files == Outcome(old(files)) && steps == old(steps) + Script(old(files), Cleaned, Cleaned)
      ensures r.Done? ==> forall u :: u in j.enable ==> u in enabled
      ensures r.Done? ==> forall u :: u in j.start ==> StartUnit(u) in steps[|old(steps)|..]
    {
      hide Valid, Disk, Inv, Converges, Legal, After, Moves, Image, Allowed, Outcome, Good, Rested, Script;
      clean := true;
      ValidHasInv();
      InvHasAllowlist(Now());
      FixedIsSynced(Now(), j);
      SelectorsOfJournal(files, j);
      SelectorsBelong(files, j);
      var belong := AssertSelectorsBelong(j, false);
      if !belong || !AtCandidate(j, files.current, files.previous) { return Refused, clean; }
      Trust(j.enable != [] && !JournalSynced(Now()));
      ghost var entry := Now();
      r, clean := FinalizeIntent(j);
      if r.Done? { RestedThrough(old(Now()), entry, Now()); }
    }

    /** What a call leaves after it began to rely on the visible files it leaves of the visible files. */
    static lemma RestedThrough(was: World, entry: World, now: World)
      requires (entry == was || entry == Synced(was)) && Rested(entry, now)
      ensures Rested(was, now)
    {
      hide Outcome, CleanupHarmless;
    }

    static lemma CommitRests(was: World, now: World, j: Journal)
      requires was.vis.journal == Some(j) && j.phase.Finalizing?
      requires Settled(now) && CleanupHarmless(now) && (now.dur.host == was.dur.host || now.dur.host == now.vis.host)
      requires Leaves(now.vis, Swept(was.vis.(journal := Some(Retire(CommitRecord(j))))))
      ensures Rested(was, now) && Outcome(was.vis) == Swept(was.vis.(journal := Some(Retire(CommitRecord(j)))))
    {
      hide CleanupHarmless, Retained;
      OutcomeOfCommit(was.vis, j);
      if HostSettles(was) { QuietHostsSettle(was); }
    }

    static lemma FinalizationJoins(s: seq<Step>, f: Files, j: Journal)
      requires f.journal == Some(j) && j.phase.Finalizing?
      ensures s + Enables(j.enable) + CommitStarts(j) + Log(CommitRecord(j)) + Finish(f, CommitRecord(j), Cleaned, Cleaned)
              == s + Script(f, Cleaned, Cleaned)
    {
      hide Enables, CommitStarts, Log, Finish;
    }

    /** Every wanted unit is enabled, and seen enabled. */
    method EnableConsumers(j: Journal) returns (r: Status)
      requires Valid() && files.journal == Some(j) && j.phase.Finalizing? && (j.enable != [] ==> JournalSynced(Now()))
      modifies this
      ensures Valid() && old(steps) <= steps && !r.Refused? && (calm ==> r.Done?)
      ensures files == old(files) && Disk() == old(Disk())
      ensures r.Done? ==> (forall u :: u in j.enable ==> u in enabled) && steps == old(steps) + Enables(j.enable)
      ensures active == old(active) && ready == old(ready) && old(enabled) <= enabled <= old(enabled) + UnitSet(j.enable)
    {
      hide Valid, Disk, Inv, Converges, Legal, After, Moves, Image, Allowed, Accepts, Advances;
      var index := 0;
      while index < |j.enable|
        invariant 0 <= index <= |j.enable|
        invariant Valid() && old(steps) <= steps && files == old(files) && Disk() == old(Disk())
        invariant active == old(active) && ready == old(ready) && old(enabled) <= enabled <= old(enabled) + UnitSet(j.enable)
        invariant forall i :: 0 <= i < index ==> j.enable[i] in enabled
        invariant steps == old(steps) + Enables(j.enable[..index])
      {
        var unit := j.enable[index];
        ValidHasInv();
        MayAct(Now(), j);
        r := EnableConsumer(unit);
        if !r.Done? { return; }
        // the check that the unit is seen enabled may itself raise
        r := Fate();
        if !r.Done? { return; }
        if unit !in enabled { return Failed; }
        r := Kill();
        if !r.Done? { return; }
        assert Enables(j.enable[..index + 1]) == Enables(j.enable[..index]) + [EnableUnit(unit)];
        index := index + 1;
      }
      assert j.enable[..|j.enable|] == j.enable;
      return Done;
    }

    /** The queued starts of a commit; without wanted units there is nothing to start. */
    method StartCommittedConsumers(j: Journal) returns (r: Status)
      requires Valid() && files.journal == Some(j) && j.phase.Finalizing? && (j.enable != [] ==> JournalSynced(Now()))
      modifies this
      ensures Valid() && old(steps) <= steps && Now() == old(Now()) && !r.Refused? && (calm ==> r.Done?)
      ensures r.Done? ==> steps == old(steps) + CommitStarts(j)
      ensures r.Done? ==> forall u :: u in j.start ==> StartUnit(u) in steps[|old(steps)|..]
    {
      hide Valid, Disk, Inv, Converges, Legal, After, Moves, Image, Allowed, Accepts, Advances;
      ValidHasInv();
      StartsAreEnabled(Now(), j);
      if j.enable == [] { return Done; }
      r := Fate();
      if !r.Done? { return; }
      var index := 0;
      while index < |j.start|
        invariant 0 <= index <= |j.start|
        invariant Valid() && old(steps) <= steps && Now() == old(Now())
        invariant steps == old(steps) + Starts(j.start[..index])
      {
        ValidHasInv();
        MayAct(Now(), j);
        r := StartConsumer(j.start[index]);
        if !r.Done? { return; }
        assert Starts(j.start[..index + 1]) == Starts(j.start[..index]) + [StartUnit(j.start[index])];
        index := index + 1;
      }
      assert j.start[..|j.start|] == j.start;
      assert forall i :: 0 <= i < |j.start| ==> Starts(j.start)[i] == StartUnit(j.start[i]);
      return Done;
    }

    lemma StartsAreEnabled(w: World, j: Journal)
      requires Inv(w) && w.vis.journal == Some(j)
      ensures Within(j.start, j.enable)
    {
      InvHasAllowlist(w);
    }

    /** _reconcile_locked: from every resumable disk it ends, unless interrupted, in the recovered disk; the engine
        itself never refuses, and an uninterrupted call writes exactly the script of the disk it found. */
    method ReconcileLocked() returns (r: Status, clean: bool)
      requires Valid()
      modifies this, aim`trusting
      ensures aim.trusting ==> old(aim.trusting) || !Resumable(old(Now()))
      ensures Valid() && old(steps) <= steps && !r.Refused? && (calm ==> r.Done? && clean)
      ensures r.Done? ==> Rested(old(Now()), Now())
      ensures r.Done? && clean ==> files == Outcome(old(files)) && steps == old(steps) + Script(old(files), Cleaned, Cleaned)
    {
      hide Valid, Disk, Inv, Converges, Legal, After, Moves, Image, Allowed, Accepts, Advances, Undoes, Concludes, Outcome, HostMatches,
           CleanupHarmless, Finish, BaselineStarts, Stranded, Rested, ReconcileScript.Rollback, Finalization, Forget, Prune, Log;
      clean := true;
      var t;
      r, t := LoadTransaction();
      if t.None? {
        r, clean := ReconcileUnjournaled();
        return;
      }
      var j := t.value;
      ValidHasInv();
      InvHasAllowlist(Now());
      if j.phase.Finalizing? {
        r, clean := FinalizeCommitLocked(j);
      } else if j.phase.StartingBaseline? {
        PendingIsOutcome(files);
        r := QueueBaselineConsumerStarts(j);
        ValidHasInv();
        PendingRests(Now());
      } else if !Terminal(j.phase) {
        r, clean := RollbackLocked(j);
      } else {
        OutcomeOfTerminal(files, j);
        r, clean := FinishTerminal(j, true);
        ValidHasInv();
        if r.Done? { TerminalRests(old(Now()), Now(), j); }
      }
    }

    /** Without a journal only garbage is removed. */
    method ReconcileUnjournaled() returns (r: Status, clean: bool)
      requires Valid() && files.journal.None?
      modifies this
      ensures Valid() && old(steps) <= steps && !r.Refused? && (calm ==> r.Done? && clean)
      ensures r.Done? ==> Rested(old(Now()), Now())
      ensures r.Done? && clean ==> files == Outcome(old(files)) && steps == old(steps) + Script(old(files), Cleaned, Cleaned)
    {
      hide Valid, Disk, Converges, Legal, After, Moves, Image, Allowed, Accepts, Advances, Outcome, CleanupHarmless, Forget, Prune, Inv,
           Rested, Retained;
      clean := true;
      ValidHasInv();
      UnjournaledSlots(Now());
      if files.current.Some? && files.current == files.previous { return Refused, clean; }
      OutcomeOfUnjournaled(files);
      ValidHasInv();
      NoJournalIsHarmless(Now());
      r, clean := Housekeeping();
      ValidHasInv();
      UnjournaledRests(old(Now()), Now());
      if r.Done? && clean {
        assert files.backups == map[];
      }
    }

    lemma UnjournaledSlots(w: World)
      requires Inv(w) && w.vis.journal.None?
      ensures SlotsDistinct(w.vis.current, w.vis.previous) && Settled(w)
    {
      InvHasAllowlist(w);
    }

    static lemma UnjournaledRests(was: World, now: World)
      requires was.vis.journal.None? && Settled(was)
      requires CleanupHarmless(now) && Leaves(now.vis, Swept(was.vis))
      requires now.dur == was.dur.(releases := now.dur.releases, backups := now.dur.backups, journal := now.dur.journal)
      requires JournalSynced(now)
      ensures Rested(was, now)
    {
      hide CleanupHarmless, Retained;
      OutcomeOfUnjournaled(was.vis);
    }

    // ---- the public operations ----

    /** reconcile: with callbacks that succeed and no kill it ends in no journal, a retired terminal journal or
        pending baseline starts, and the selectors are what the register says. */
    method Reconcile() returns (r: Status, clean: bool)
      requires Valid()
      requires aim.goal == None
      modifies this, aim
      ensures aim.goal == None && (aim.trusting ==> old(aim.trusting) || !Resumable(old(Now())))
      ensures Outcome(files) == Outcome(old(files))
      ensures Converges(old(Now()), Outcome(old(files))) ==> Converges(Now(), Outcome(old(files)))
      ensures Valid() && old(steps) <= steps && !r.Refused?
      ensures calm ==> r.Done? && clean
      ensures r.Done? ==> Rested(old(Now()), Now())
      ensures r.Done? && clean ==> files == Outcome(old(files)) && steps == old(steps) + Script(old(files), Cleaned, Cleaned)
      ensures r.Done? ==> Register(files.current, files.previous) == Abstract(old(files)) == Abstract(files)
      ensures r.Done? && files.journal.Some? ==> files.journal.value.phase.StartingBaseline?
                                                 || (Terminal(files.journal.value.phase) && files.journal.value.retired)
    {
      hide Legal, After, Moves, Image, Allowed, Outcome, Leaves, Good, Converges, InStep, Script, Resumable, CleanupHarmless,
           HostSettles;
      InvHasAllowlist(Now());
      aim.goal, aim.whole := Some(Outcome(files)), Converges(Now(), Outcome(files));
      r, clean := ReconcileLocked();
      aim.goal := None;
      if r.Done? {
        RecoveredSelectsRegister(files, old(files));
      }
    }

    /** rollback: refused for a foreign id and under durable commit intent, and for nothing else. */
    method Rollback(id: TxId) returns (r: Status, clean: bool)
      requires Valid()
      requires aim.goal == None
      modifies this, aim
      ensures aim.goal == None && (aim.trusting ==> old(aim.trusting) || !Resumable(old(Now())))
      ensures Outcome(files) == Outcome(old(files))
      ensures Converges(old(Now()), Outcome(old(files))) ==> Converges(Now(), Outcome(old(files)))
      ensures Valid() && old(steps) <= steps
      ensures r.Refused? <==> old(files).journal.None? || old(files).journal.value.id != id
                              || CommitIntent(old(files).journal.value)
      ensures r.Refused? ==> Now() == old(Now())
      ensures calm ==> r.Refused? || (r.Done? && clean)
      ensures r.Done? ==> Rested(old(Now()), Now())
      ensures r.Done? && clean ==> files == Outcome(old(files)) && steps == old(steps) + Script(old(files), Cleaned, Cleaned)
    {
      hide Inv, Converges, Legal, After, Moves, Image, Allowed, Outcome, Leaves, Good, Resumable, Rested, Script;
      clean := true;
      var t;
      r, t := LoadTransaction();
      if t.None? || t.value.id != id { return Refused, clean; }
      aim.goal, aim.whole := Some(Outcome(files)), Converges(Now(), Outcome(files));
      r, clean := RollbackLocked(t.value);
      aim.goal := None;
    }

    /** _set_phase on the way forward. */
    method ForwardPhase(t: Journal, phase: Phase) returns (r: Status)
      requires Valid() && SelectorsSynced(Now()) && files.journal == Some(t)
      requires AdvancesForward(files, t, t.(phase := phase)) && phase != t.phase
      requires phase.Prepared? ==> t.candidate in Disk().releases
      requires !phase.Committed? && (HandsOver(t.(phase := phase)) ==> JournalSynced(Now()))
      requires aim.goal == None
      modifies this
      ensures Valid() && old(steps) <= steps && !r.Refused? && (calm ==> r.Done?)
      ensures r.Done? ==> Settled(Now()) && Now() == Logged(old(Now()), t.(phase := phase))
    {
      hide Valid, Disk, Advances, AdvancesForward, Concludes, Undoes, Legal, After, Inv, Accepts;
      ForwardOnSettled(Now(), t, t.(phase := phase));
      ForwardAdvances(files, t, t.(phase := phase));
      ForwardAdvances(Disk(), t, t.(phase := phase));
      r := SetPhase(t, phase);
    }

    /** activate.  A prepared, armed and, where needed, marked transaction switches both selectors; an
        interrupted one is rolled back instead. */
    method Activate(id: TxId) returns (r: Status)
      requires Valid()
      requires aim.goal == None
      modifies this, aim`trusting
      ensures aim.trusting ==> old(aim.trusting) || !Resumable(old(Now()))
      ensures Valid() && old(steps) <= steps
      ensures r.Done? ==>
                && old(files).journal.Some? && old(files).journal.value.id == id
                && (Settled(Now()) <==> JournalSynced(old(Now())) || !old(files).journal.value.phase.Activated?)
                && var j := old(files).journal.value;
                   && (j.phase.Activated? || Activatable(j))
                   && files == old(files).(journal := Some(j.(phase := Activated)),
                                           current := Some(j.candidate), previous := j.currentBefore)
      ensures r.Refused? ==> old(files).journal.None? || old(files).journal.value.id != id
                             || (!old(files).journal.value.phase.Activated? && !Activatable(old(files).journal.value)
                                 && (!old(files).journal.value.phase.Prepared? ==> Rested(old(Now()), Now())))
      ensures calm ==> r.Done? || r.Refused?
    {
      hide Valid, Disk, Inv, Converges, Legal, After, Moves, Image, Allowed, Outcome, Leaves, Good, Accepts, Advances, AdvancesForward,
           Resumable, Rested, Script;
      var t;
      r, t := LoadTransaction();
      if t.None? || t.value.id != id { return Refused; }
      var j := t.value;
      if j.phase.Activated? {
        ValidHasInv();
        InvHasAllowlist(Now());
        SelectorsOfJournal(files, j);
        ValidHasInv();
        FixedIsSynced(Now(), j);
        SelectorsBelong(files, j);
        var belong := AssertSelectorsBelong(j, false);
        if !belong { return Refused; }
        return if AtCandidate(j, files.current, files.previous) then Done else Refused;
      }
      if !j.phase.Prepared? {
        var clean;
        r, clean := ReconcileLocked();
        return if r.Done? then Refused else r;
      }
      if !j.armed { return Refused; }
      if j.kind == Archive && j.profile == Some(ManagedLocal) && Daemon in j.plan && !j.daemonStarted { return Refused; }
      r := SwitchSelectors(j);
    }

    /** Prepared, armed, and the daemon marked where the plan owns it. */
    static predicate Activatable(j: Journal) {
      j.phase.Prepared? && j.armed && (ManagedDaemonPlan(j) ==> j.daemonStarted)
    }

    static lemma PreparedIsStored(w: World, j: Journal)
      requires Inv(w) && w.vis.journal == Some(j) && j.phase.Prepared?
      ensures j.candidate in w.vis.releases && Stored(w.vis.releases, j.currentBefore)
      ensures AtBaseline(j, w.vis.current, w.vis.previous) && SlotsDistinct(w.vis.current, w.vis.previous)
    {
      InvHasAllowlist(w);
    }

    method SwitchCurrent(j: Journal) returns (r: Status)
      requires Valid() && files.journal == Some(j) && Activatable(j)
      requires aim.goal == None
      modifies this
      ensures Valid() && old(steps) <= steps && !r.Refused? && (calm ==> r.Done?)
      ensures r.Done? ==> Settled(Now()) && files == old(files).(journal := Some(j.(phase := CurrentSwitched)),
                                                                 current := Some(j.candidate))
    {
      hide Valid, Disk, Inv, Converges, Legal, After, Moves, Image, Allowed, Accepts, Advances, AdvancesForward, Log, Pick,
           Picked, Logged, Settled, SelectorsSynced, Activatable, Good, Outcome;
      ValidHasInv();
      CurrentSteps(Now(), j);
      r := ForwardPhase(j, SwitchingCurrent);
      if !r.Done? { return; }
      r := AtomicSetSelector(Current, Some(j.candidate));
      if !r.Done? { return; }
      r := Kill();
      if !r.Done? { return; }
      r := ForwardPhase(j.(phase := SwitchingCurrent), CurrentSwitched);
    }

    /** The first half of an activation, world by world. */
    static lemma CurrentSteps(w: World, j: Journal)
      requires Inv(w) && w.vis.journal == Some(j) && Activatable(j)
      ensures var switching, switched := j.(phase := SwitchingCurrent), j.(phase := CurrentSwitched);
              var w1 := Logged(w, switching);
              var w2 := Picked(w1, Current, Some(j.candidate));
              var w3 := Logged(w2, switched);
              && j.phase.Prepared? && SelectorsSynced(w) && AdvancesForward(w.vis, j, switching)
              && w1.vis.journal == Some(switching) && j.candidate in w1.vis.releases
              && Allowed(w1, PutSelector(Current, Some(j.candidate)))
              && SelectorsSynced(w2) && w2.vis.journal == Some(switching) && AdvancesForward(w2.vis, switching, switched)
              && Settled(w3)
              && w3.vis == w.vis.(journal := Some(switched), current := Some(j.candidate))
    {
      hide Inv, Allowed;
      PreparedIsStored(w, j);
      FixedIsSynced(w, j);
      MaySelectEverywhere(Logged(w, j.(phase := SwitchingCurrent)), Current, Some(j.candidate));
    }

    method SwitchPrevious(j: Journal) returns (r: Status)
      requires Valid() && Settled(Now()) && files.journal == Some(j) && j.phase.CurrentSwitched?
      requires Stored(files.releases, j.currentBefore)
      requires aim.goal == None
      modifies this
      ensures Valid() && old(steps) <= steps && !r.Refused? && (calm ==> r.Done?)
      ensures r.Done? ==> Settled(Now()) && files == old(files).(journal := Some(j.(phase := Activated)),
                                                                 previous := j.currentBefore)
    {
      hide Valid, Disk, Inv, Converges, Legal, After, Moves, Image, Allowed, Accepts, Advances, AdvancesForward, Log, Pick,
           Picked, Logged, Settled, SelectorsSynced, JournalSynced;
      ValidHasInv();
      PreviousSteps(Now(), j);
      r := ForwardPhase(j, SwitchingPrevious);
      if !r.Done? { return; }
      r := AtomicSetSelector(Previous, j.currentBefore);
      if !r.Done? { return; }
      r := Kill();
      if !r.Done? { return; }
      r := ForwardPhase(j.(phase := SwitchingPrevious), Activated);
    }

    /** The second half. */
    static lemma PreviousSteps(w: World, j: Journal)
      requires Inv(w) && Settled(w) && w.vis.journal == Some(j) && j.phase.CurrentSwitched?
      ensures var switching, activated := j.(phase := SwitchingPrevious), j.(phase := Activated);
              var w1 := Logged(w, switching);
              var w2 := Picked(w1, Previous, j.currentBefore);
              var w3 := Logged(w2, activated);
              && SelectorsSynced(w) && AdvancesForward(w.vis, j, switching)
              && w1.vis.journal == Some(switching) && w1.vis.releases == w.vis.releases
              && Allowed(w1, PutSelector(Previous, j.currentBefore))
              && SelectorsSynced(w2) && JournalSynced(w2) && w2.vis.journal == Some(switching)
              && AdvancesForward(w2.vis, switching, activated)
              && Settled(w3)
              && w3.vis == w.vis.(journal := Some(activated), previous := j.currentBefore)
    {
      hide Inv, Allowed;
      PreviousStays(w, j);
      MaySelectEverywhere(Logged(w, j.(phase := SwitchingPrevious)), Previous, j.currentBefore);
    }

    static lemma PreviousStays(w: World, j: Journal)
      requires Inv(w) && w.vis.journal == Some(j) && j.phase.CurrentSwitched?
      ensures w.vis.previous == j.previousBefore
    {
      InvHasAllowlist(w);
    }

    method SwitchSelectors(j: Journal) returns (r: Status)
      requires Valid() && files.journal == Some(j) && Activatable(j)
      requires aim.goal == None
      modifies this
      ensures Valid() && old(steps) <= steps && !r.Refused? && (calm ==> r.Done?)
      ensures r.Done? ==> Settled(Now()) && files == old(files).(journal := Some(j.(phase := Activated)),
                                                                 current := Some(j.candidate), previous := j.currentBefore)
    {
      hide Valid, Disk, Inv, Converges, Legal, After, Moves, Image, Allowed, Accepts, Advances, AdvancesForward;
      ValidHasInv();
      PreparedIsStored(Now(), j);
      var belong := AssertSelectorsBelong(j, false);
      if !belong { return Refused; }
      if j.candidate !in files.releases { return Refused; }
      r := SwitchCurrent(j);
      if !r.Done? { return; }
      r := SwitchPrevious(j.(phase := CurrentSwitched));
    }

    /** commit.  From `activated` it publishes exactly one candidate; under commit intent it resumes. */
    method Commit(id: TxId) returns (r: Status, clean: bool)
      requires Valid()
      requires aim.goal == None
      modifies this, aim`trusting
      ensures aim.trusting ==> old(aim.trusting) || !Resumable(old(Now()))
      ensures Valid() && old(steps) <= steps
      ensures r.Done? ==>
                && SelectorsSynced(Now()) && old(files).journal.Some? && old(files).journal.value.id == id
                && var j := old(files).journal.value;
                   && (j.phase.Activated? || CommitIntent(j))
                   && (JournalSynced(old(Now())) || !j.retired ==> Settled(Now()))
                   && Register(files.current, files.previous) == Abstract(files) == Register(Some(j.candidate), j.currentBefore)
                   && files.journal.Some? && files.journal.value.id == id
                   && files.journal.value.phase.Committed? && files.journal.value.retired
      ensures r.Refused? ==> old(files).journal.None? || old(files).journal.value.id != id
                             || (!old(files).journal.value.phase.Activated? && !CommitIntent(old(files).journal.value)
                                 && Rested(old(Now()), Now()))
      ensures calm ==> r.Refused? || (r.Done? && clean)
      ensures r.Done? && !old(files).journal.value.phase.Committed? ==>
                var j := old(files).journal.value;
                && (forall u :: u in j.enable ==> u in enabled)
                && (forall u :: u in j.start ==> StartUnit(u) in steps[|old(steps)|..])
    {
      hide Valid, Disk, Inv, Converges, Legal, After, Moves, Image, Allowed, Outcome, Good, Accepts, Advances, AdvancesForward, Script,
           Finish, Stranded, CleanupHarmless, HostSettles;
      clean := true;
      var t;
      r, t := LoadTransaction();
      if t.None? || t.value.id != id { return Refused, clean; }
      var j := t.value;
      ValidHasInv();
      InvHasAllowlist(Now());
      SelectorsOfJournal(files, j);
      if j.phase.Committed? {
        r, clean := FinishTerminal(j, true);
      } else if j.phase.Finalizing? {
        OutcomeOfCommit(files, j);
        r, clean := FinalizeCommitLocked(j);
      } else if j.phase.Activated? {
        r, clean := CommitActivated(j);
      } else {
        r, clean := ReconcileLocked();
        if r.Done? { r := Refused; }
      }
    }

    method CommitActivated(j: Journal) returns (r: Status, clean: bool)
      requires Valid() && files.journal == Some(j) && j.phase.Activated?
      requires aim.goal == None
      modifies this, aim`trusting
      ensures aim.trusting ==> old(aim.trusting)
      ensures Valid() && old(steps) <= steps && !r.Refused? && (calm ==> r.Done? && clean)
      ensures r.Done? ==> Settled(Now())
                          && Leaves(files, Swept(old(files).(journal :=
                               Some(Retire(CommitRecord(j.(phase := Finalizing, daemonStarted := false)))))))
      ensures r.Done? ==> files.current == Some(j.candidate) && files.previous == j.currentBefore
      ensures r.Done? ==> forall u :: u in j.enable ==> u in enabled
      ensures r.Done? ==> forall u :: u in j.start ==> StartUnit(u) in steps[|old(steps)|..]
    {
      hide Inv, Converges, Legal, After, Moves, Image, Allowed, Outcome, Good, Accepts, Advances, AdvancesForward, Leaves,
           Script, Log, CleanupHarmless, HostSettles;
      clean := true;
      InvHasAllowlist(Now());
      SelectorsOfJournal(files, j);
      FixedIsSynced(Now(), j);
      SelectorsBelong(files, j);
      var belong := AssertSelectorsBelong(j, false);
      if !belong { return Refused, clean; }
      if !AtCandidate(j, files.current, files.previous) { return Refused, clean; }
      var intent := j.(phase := Finalizing, daemonStarted := false);
      ForwardSteps(files, j);
      ForwardSteps(Disk(), j);
      r := Rewrite(intent);
      if !r.Done? { return; }
      r := Kill();
      if !r.Done? { return; }
      ghost var logged := steps;
      OutcomeOfCommit(files, intent);
      r, clean := FinalizeCommitLocked(intent);
      if r.Done? {
        LeavesSelectors(files, Swept(old(files).(journal := Some(Retire(CommitRecord(intent))))));
      }
    }

    lemma LeavesSelectors(f: Files, o: Files)
      requires Leaves(f, o)
      ensures f.current == o.current && f.previous == o.previous && f.journal == o.journal
    {
    }

    /** acknowledge_consumers: the pending obligation ends only when every fenced unit is active and ready. */
    method AcknowledgeConsumers() returns (r: Status, clean: bool)
      requires Valid()
      requires aim.goal == None
      modifies this, aim`trusting
      ensures aim.trusting ==> old(aim.trusting)
      ensures Valid() && old(steps) <= steps && !r.Refused?
      ensures old(files).journal.None? || !old(files).journal.value.phase.StartingBaseline? ==>
                r == Done && Now() == old(Now())
      ensures old(files).journal.Some? && old(files).journal.value.phase.StartingBaseline? ==>
                var j := old(files).journal.value;
                var owed := set u | u in j.activeBefore && (u.Daemon? ==> j.daemonStarted);
                && (r.Done? ==> Settled(Now()) && Leaves(files, Swept(old(files).(journal := Some(Retire(AcknowledgedRecord(j)))))))
                && (r.Done? ==> owed <= old(active) && owed <= old(ready))
                && (calm && owed <= old(active) && owed <= old(ready) ==> r.Done? && clean)
                && (!(owed <= old(active)) || !(owed <= old(ready)) ==> !r.Done? && Now() == old(Now()))
    {
      hide Inv, Converges, Legal, After, Moves, Image, Allowed, Outcome, Good, Accepts, Advances, Concludes, Finish, Log,
           CleanupHarmless;
      clean := true;
      var t;
      r, t := LoadTransaction();
      if t.None? || !t.value.phase.StartingBaseline? { return; }
      var j := t.value;
      InvHasAllowlist(Now());
      ConsumersOfJournal(files, j);
      r := AreReady(j);
      if !r.Done? { return; }
      FixedIsSynced(Now(), j);
      ConclusionSteps(files, j);
      r := Conclude(AcknowledgedRecord(j));
      if !r.Done? { return; }
      r := Kill();
      if !r.Done? { return; }
      r, clean := FinishTerminal(AcknowledgedRecord(j), false);
    }

    /** consumer_is_active and consumer_is_ready of every unit but a daemon without its marker; both may also raise. */
    method AreReady(j: Journal) returns (r: Status)
      requires Valid() && files.journal == Some(j)
      ensures r.Done? || r.Failed?
      ensures var owed := set u | u in j.activeBefore && (u.Daemon? ==> j.daemonStarted);
              && (r.Done? ==> owed <= active && owed <= ready)
              && (calm && owed <= active && owed <= ready ==> r.Done?)
    {
      hide Valid, Good;
      ValidHasInv();
      InvHasAllowlist(Now());
      ConsumersOfJournal(files, j);
      var index := 0;
      while index < |j.activeBefore|
        invariant 0 <= index <= |j.activeBefore|
        invariant forall i :: 0 <= i < index && Fenced(j, j.activeBefore[i]) ==>
                    j.activeBefore[i] in active && j.activeBefore[i] in ready
      {
        var unit := j.activeBefore[index];
        if !(unit.Daemon? && j.kind.Archive? && j.profile == Some(ManagedLocal) && !j.daemonStarted) {
          assert Fenced(j, unit);
          if unit !in active || unit !in ready { return Failed; }
          r := Raise();
          if !r.Done? { return; }
        }
        index := index + 1;
      }
      return Done;
    }

    /** mark_daemon_mutation_started. */
    method MarkDaemonMutationStarted(id: TxId) returns (r: Status)
      requires Valid()
      requires aim.goal == None
      modifies this
      ensures Valid() && old(steps) <= steps
      ensures r.Done? ==>
                && old(files).journal.Some? && old(files).journal.value.id == id
                && (JournalSynced(Now()) <==> JournalSynced(old(Now())) || !old(files).journal.value.daemonStarted)
                && var j := old(files).journal.value;
                   && (j.daemonStarted || Markable(j))
                   && files == old(files).(journal := Some(j.(daemonStarted := true)))
      ensures r.Refused? ==> Now() == old(Now())
      ensures r.Refused? <==> old(files).journal.None? || old(files).journal.value.id != id
                              || (!old(files).journal.value.daemonStarted && !Markable(old(files).journal.value))
      ensures calm ==> r.Done? || r.Refused?
    {
      hide Valid, Disk, Inv, Converges, Legal, After, Moves, Image, Allowed, Outcome, Good, Accepts, Advances, AdvancesForward, Log;
      var t;
      r, t := LoadTransaction();
      if t.None? || t.value.id != id { return Refused; }
      var j := t.value;
      if j.daemonStarted { return Done; }
      if j.phase != Prepared || !j.armed || j.kind != Archive || j.profile != Some(ManagedLocal) || Daemon !in j.plan {
        return Refused;
      }
      ValidHasInv();
      UnmarkedHostIsExact(Now(), j);
      var exact := VerifyHostArtifactsExact(j.hostArtifacts);
      if !exact { return Refused; }
      r := Raise();
      if !r.Done? { return; }
      ForwardSteps(files, j);
      ForwardSteps(Disk(), j);
      ValidHasInv();
      InvHasAllowlist(Now());
      r := Rewrite(j.(daemonStarted := true));
      if !r.Done? { return; }
      r := Kill();
    }

    /** Armed, not yet activating, and the plan owns the managed daemon. */
    static predicate Markable(j: Journal) {
      j.phase.Prepared? && j.armed && ManagedDaemonPlan(j)
    }

    /** Nobody may have touched the host of an armed managed archive before the marker. */
    lemma UnmarkedHostIsExact(w: World, j: Journal)
      requires Inv(w) && w.vis.journal == Some(j) && Markable(j) && !j.daemonStarted
      ensures HostMatches(j.hostArtifacts, w.vis.host)
    {
      InvHasAllowlist(w);
    }

    // ---- arming ----

    /** _capture_consumer_active_before: exactly the active units of the scope, in order. */
    method CaptureConsumerActiveBefore(units: seq<Unit>) returns (r: Status, found: seq<Unit>)
      requires Canonical(units)
      ensures !r.Refused? && (calm ==> r.Done?)
      ensures r.Done? ==> Canonical(found) && forall u :: u in found <==> u in units && u in active
    {
      found := [];
      var index := 0;
      while index < |units|
        invariant 0 <= index <= |units|
        invariant Canonical(found) && forall u :: u in found <==> u in units[..index] && u in active
        invariant forall u :: u in found && index < |units| ==> Rank(u) < Rank(units[index])
      {
        r := Fate();
        if !r.Done? { return; }
        assert units[..index + 1] == units[..index] + [units[index]];
        assert forall k :: 0 <= k < index && index + 1 < |units| ==> Rank(units[k]) < Rank(units[index + 1]);
        if units[index] in active {
          found := found + [units[index]];
        }
        index := index + 1;
      }
      assert units[..|units|] == units;
      r := Done;
    }

    /** _capture_consumer_baseline: the response of Nginx is written beside the journal's other backups. */
    method CaptureConsumerBaseline(tx: TxId, units: seq<Unit>) returns (r: Status, records: seq<BaselineRecord>)
      requires Valid() && forall id :: id in files.backups ==> id.tx != tx || !id.name.Response?
      requires aim.goal == None
      modifies this
      ensures Valid() && old(steps) <= steps && !r.Refused? && (calm ==> r.Done?)
      ensures Now() == old(Now()).(vis := old(files).(backups := files.backups), dur := old(Disk()).(backups := Disk().backups))
      ensures r.Done? ==> BaselineValid(files.backups, records, tx, units)
      ensures r.Done? ==> if units == [] then Now() == old(Now()) else Disk().backups == files.backups
    {
      hide Inv, Converges, Legal, After, Moves, Image, Allowed, Substantial, ProcessValid;
      records := [];
      if units == [] { return Done, records; }
      var index := 0;
      while index < |units|
        invariant 0 <= index <= |units|
        invariant Valid() && old(steps) <= steps
        invariant Now() == old(Now()).(vis := old(files).(backups := files.backups), dur := old(Disk()).(backups := Disk().backups))
        invariant calm ==> BaselineValid(files.backups, records, tx, units[..index])
        invariant forall k :: index <= k ==> BackupId(tx, Response(k)) !in files.backups
      {
        var unit := units[index];
        var response, process := None, None;
        r := Fate();
        if !r.Done? { return; }
        if unit.Nginx? {
          var body := ReadBytes();
          var id := BackupId(tx, Response(index));
          BackUp(id, body);
          if |body| > MAX_HOST_ARTIFACT_BYTES { WithinLimit(body); return Failed, records; }
          response := Some((id, Sha256(body)));
        } else if unit.Api? {
          var identity := ReadProcess();
          process := Some(identity);
        }
        records := records + [BaselineRecord(unit, response, process)];
        index := index + 1;
        r := Fate();
        if !r.Done? { return; }
      }
      SyncBackups();
      assert units[..|units|] == units;
      // an empty response or a malformed identity raises only now
      var ok := JournalValidator.ValidateConsumerBaselineRecords(files.backups, records, tx, units);
      r := if ok then Done else Failed;
    }

    static lemma WithinLimit(content: Bytes)
      ensures Substantial(Sha256(content)) ==> |content| <= MAX_HOST_ARTIFACT_BYTES
    {
    }

    /** What a capture callback wrote. */
    method ReadBytes() returns (content: Bytes)
      ensures calm ==> Substantial(Sha256(content))
    {
      content := *;
      if calm && !Substantial(Sha256(content)) { content := "#!/"; }
    }

    method ReadHelper() returns (content: Bytes)
      ensures calm ==> Substantial(Sha256(content)) && IsScript(content)
    {
      content := *;
      if calm && !(Substantial(Sha256(content)) && IsScript(content)) { content := "#!/"; }
    }

    method ReadBoundary() returns (content: Bytes)
      ensures calm ==> Substantial(Sha256(content)) && SnapshotState(content).Some?
    {
      content := *;
      if calm && !(Substantial(Sha256(content)) && SnapshotState(content).Some?) {
        content := HEADER + "absent";
        AbsentIsState();
      }
    }

    method ReadProcess() returns (p: Process)
      ensures calm ==> ProcessValid(p)
    {
      p := *;
      if calm && !ProcessValid(p) {
        p := Process("/", "/", "/", "/");
        assert Parts("/") == ["", ""];
      }
    }

    static predicate Unarmed(f: Files) {
      f.journal.Some? ==> !f.journal.value.armed
    }

    /** What arming makes durable first: the active units of the plan and the baseline response, captured in a
        window in which neither the host nor the units changed. */
    method CaptureRollbackAuthority(j: Journal) returns (r: Status, found: seq<Unit>, baseline: seq<BaselineRecord>)
      requires Valid() && Canonical(j.plan) && Unarmed(files) && Unarmed(Disk())
      requires aim.goal == None
      modifies this
      ensures Valid() && old(steps) <= steps
      ensures Now() == old(Now()).(vis := old(files).(backups := files.backups), dur := old(Disk()).(backups := Disk().backups))
      ensures r.Done? ==> BaselineValid(files.backups, baseline, j.id, found) && (found == [] || Disk().backups == files.backups)
      ensures r.Done? ==> Canonical(found) && forall u :: u in found <==> u in j.plan && u in active
      ensures r.Done? ==> HostMatches(j.hostArtifacts, files.host)
      ensures r.Refused? ==> !HostMatches(j.hostArtifacts, files.host)
      ensures calm ==> r.Done? || r.Refused?
    {
      hide Valid, Inv, Converges, Legal, After, Moves, Image, Allowed, Accepts, BaselineValid;
      found, baseline := [], [];
      r := CheckReadOnlyWindow(j);
      if !r.Done? { return; }
      ValidHasInv();
      UnarmedResponsesAreGarbage(Now());
      r := ForgetResponses(j.id);
      if !r.Done? { return; }
      r, found := CaptureConsumerActiveBefore(j.plan);
      if !r.Done? { return; }
      r, baseline := CaptureConsumerBaseline(j.id, found);
      if !r.Done? { return; }
      r := Kill();
      if !r.Done? { return; }
      r := CheckReadOnlyWindow(j);
      if !r.Done? { return; }
      var again;
      r, again := CaptureConsumerActiveBefore(j.plan);
      if !r.Done? { return; }
      CanonicalIsUnique(again, found);
      if again != found { return Refused, found, baseline; }
      r := Raise();
    }

    /** _cleanup_unarmed_consumer_baseline: responses an interrupted arming left behind. */
    method ForgetResponses(tx: TxId) returns (r: Status)
      requires Valid() && aim.goal == None
      requires forall id: BackupId :: id.name.Response? ==> MayForget(files, id) && MayForget(Disk(), id)
      modifies this
      ensures Valid() && old(steps) <= steps && !r.Refused? && (calm ==> r.Done?)
      ensures Now() == old(Now()).(vis := old(files).(backups := files.backups), dur := old(Disk()).(backups := Disk().backups))
      ensures r.Done? ==> forall id :: id in files.backups ==> id.tx != tx || !id.name.Response?
    {
      hide Valid, Disk, Inv, Converges, Legal, After, Moves, Image, Allowed, MayForget;
      var ids := set b | b in files.backups && b.tx == tx && b.name.Response?;
      r := ForgetBackups(ids, false);
    }

    /** arm_consumers.  On success the rollback authority over exactly the active units of the plan is durable
        before any consumer is touched. */
    method ArmConsumers(id: TxId, consumers: seq<Unit>) returns (r: Status)
      requires Valid()
      requires aim.goal == None
      modifies this
      ensures Valid() && old(steps) <= steps
      ensures r.Done? ==>
                && files.journal.Some? && old(files).journal.Some?
                && (JournalSynced(Now()) <==> JournalSynced(old(Now())) || Unarmed(old(files)))
                && var j, n := old(files).journal.value, files.journal.value;
                   && j.id == id && n.armed && NoRepeats(consumers) && InOrder(consumers) == j.plan
                   && (j.armed ==> Now() == old(Now()))
                   && (!j.armed ==>
                         && j.phase.Prepared?
                         && n == j.(armed := true, activeBefore := n.activeBefore, baseline := n.baseline)
                         && (forall u :: u in n.activeBefore <==> u in j.plan && u in active)
                         && files == old(files).(journal := Some(n), backups := files.backups))
      ensures r.Refused? ==> files == old(files).(backups := files.backups)
      ensures r.Refused? ==>
                || !NoRepeats(consumers)
                || old(files).journal.None? || old(files).journal.value.id != id
                || var j := old(files).journal.value;
                   InOrder(consumers) != j.plan
                   || (!j.armed && (!j.phase.Prepared? || !HostMatches(j.hostArtifacts, old(files).host)))
      ensures calm ==> r.Done? || r.Refused?
    {
      hide Valid, Disk, Inv, Converges, Legal, After, Moves, Image, Allowed, Outcome, Good, Accepts, Advances, AdvancesForward, Arms, Log,
           HostMatches, BaselineValid;
      var requested := InOrder(consumers);
      InOrderCounts(consumers);
      if |requested| != |consumers| { return Refused; }
      var t;
      r, t := LoadTransaction();
      if t.None? || t.value.id != id || requested != t.value.plan { return Refused; }
      var j := t.value;
      if j.armed { return Done; }
      if !j.phase.Prepared? { return Refused; }
      ValidHasInv();
      UnarmedOnDisk(Now(), j);
      var found, baseline;
      r, found, baseline := CaptureRollbackAuthority(j);
      if !r.Done? { return; }
      var armed := j.(activeBefore := found, baseline := baseline, armed := true);
      ArmsOnBoth(files, Disk(), j, armed);
      MayArm(files, j, armed);
      MayArm(Disk(), j, armed);
      ValidHasInv();
      InvHasAllowlist(Now());
      r := Rewrite(armed);
      if !r.Done? { return; }
      r := Kill();
    }

    /** The record before an unarmed `prepared` journal belongs to its own transaction, and is unarmed as well. */
    lemma UnarmedOnDisk(w: World, j: Journal)
      requires Inv(w) && w.vis.journal == Some(j) && j.phase.Prepared? && !j.armed
      ensures Unarmed(w.vis) && Unarmed(w.dur)
    {
      InvHasAllowlist(w);
    }

    lemma ArmsOnBoth(f: Files, g: Files, j: Journal, n: Journal)
      requires j.phase.Prepared? && !j.armed && (f.backups == g.backups || n.activeBefore == [])
      requires n == j.(activeBefore := n.activeBefore, baseline := n.baseline, armed := true)
      requires Canonical(n.activeBefore) && Within(n.activeBefore, j.plan)
      requires BaselineValid(f.backups, n.baseline, j.id, n.activeBefore)
      ensures Arms(f, j, n) && Arms(g, j, n)
    {
    }

    /** The host and the native boundary must not have drifted since the snapshot. */
    method CheckReadOnlyWindow(j: Journal) returns (r: Status)
      ensures r.Done? ==> HostMatches(j.hostArtifacts, files.host)
      ensures r.Refused? <==> !HostMatches(j.hostArtifacts, files.host)
      ensures calm ==> r.Done? || r.Refused?
    {
      var exact := VerifyHostArtifactsExact(j.hostArtifacts);
      if !exact { return Refused; }
      r := Fate();
    }

    lemma UnarmedResponsesAreGarbage(w: World)
      requires Inv(w) && Unarmed(w.vis) && Unarmed(w.dur)
      ensures forall id: BackupId :: id.name.Response? ==> MayForget(w.vis, id) && MayForget(w.dur, id)
    {
      hide Inv;
      InvHasAllowlist(w);
      if w.vis.journal.Some? {
        ResponsesUnreferenced(w.vis, w.vis.journal.value);
      }
      if w.dur.journal.Some? {
        ResponsesUnreferenced(w.dur, w.dur.journal.value);
      }
    }

    // ---- preparing a transaction ----

    /** The reconcile a prepare begins with; a pending consumer restart refuses the prepare. */
    method ReconcileForPrepare() returns (r: Status)
      requires Valid()
      requires aim.goal == None
      modifies this, aim`trusting
      ensures aim.trusting ==> old(aim.trusting) || !Resumable(old(Now())) || !HostSettles(old(Now()))
      ensures Valid() && old(steps) <= steps
      ensures r.Refused? ==> Pending(old(files))
      ensures calm ==> r.Done? || r.Refused?
      ensures r.Done? ==> !Pending(old(files)) && Leaves(files, Outcome(old(files)))
                          && SelectorsSynced(Now()) && files.host == Disk().host && Quiet(files) && CleanupHarmless(Now())
                          && (files.journal.Some? ==> files.journal.value.retired)
                          && Register(files.current, files.previous) == Abstract(old(files)) == Abstract(files)
                          && SlotsDistinct(files.current, files.previous)
    {
      hide Inv, Converges, Legal, After, Moves, Image, Allowed, Outcome, Good, Accepts, Advances, Script, Resumable, HostSettles,
           CleanupHarmless;
      Trust(!HostSettles(Now()));
      ghost var entry := Now();
      TrustSettlesHosts(old(Now()), entry);
      InvHasAllowlist(Now());
      var clean;
      r, clean := ReconcileLocked();
      if !r.Done? { return; }
      RecoveredSelectsRegister(files, old(files));
      if files.journal.Some? && !Terminal(files.journal.value.phase) { return Refused; }
      InvHasAllowlist(Now());
      QuiescentSlots(files);
    }

    static lemma TrustSettlesHosts(was: World, entry: World)
      requires entry == (if !HostSettles(was) then Synced(was) else was) || entry == Synced(was)
      ensures HostSettles(entry) && entry.vis == was.vis && (Resumable(was) ==> Resumable(entry))
    {
    }

    /** Reconcile leaves a consumer restart to be acknowledged. */
    static predicate Pending(f: Files) {
      Outcome(f).journal.Some? && Outcome(f).journal.value.phase.StartingBaseline?
    }

    static lemma QuiescentSlots(f: Files)
      requires Good(f) && (f.journal.Some? ==> Terminal(f.journal.value.phase) && f.journal.value.retired)
      ensures SlotsDistinct(f.current, f.previous) && Quiet(f)
    {
    }

    /** _strict_prepare_housekeeping: nothing but the selected releases survives, and any failure is fatal. */
    method StrictPrepareHousekeeping() returns (r: Status)
      requires Valid() && Quiet(files) && CleanupHarmless(Now())
      requires aim.goal == None
      modifies this
      ensures Valid() && old(steps) <= steps && !r.Refused? && (calm ==> r.Done?)
      ensures Now() == old(Now()).(vis := old(files).(releases := files.releases, backups := files.backups),
                                   dur := old(Disk()).(releases := Disk().releases, backups := Disk().backups, journal := Disk().journal))
      ensures JournalSynced(old(Now())) ==> JournalSynced(Now())
      ensures r.Done? ==> files.releases == Retained(files) && files.backups == map[]
    {
      hide Valid, Disk, Inv, Converges, Legal, After, Moves, Image, Allowed, Accepts, Advances, Compact, CleanupHarmless, Forget, Prune,
           MayForget, Sweeps, Quiet;
      ValidHasInv();
      HarmlessForgets(Now());
      r := ForgetBackups(files.backups.Keys, true);
      if !r.Done? { return; }
      ValidHasInv();
      HarmlessStays(old(Now()), Now());
      r := PruneReleases(Retained(files));
    }

    /** A recovered deployment holding nothing but its selected releases, or no transaction at all. */
    method ClearForPrepare() returns (r: Status)
      requires Valid()
      requires aim.goal == None
      modifies this, aim`trusting
      ensures aim.trusting ==> old(aim.trusting) || !Resumable(old(Now())) || !HostSettles(old(Now()))
      ensures Valid() && old(steps) <= steps
      ensures r.Refused? ==> Pending(old(files))
      ensures calm ==> r.Done? || r.Refused?
      ensures r.Done? ==> !Pending(old(files)) && Clear(old(files))
    {
      hide Valid, Disk, Inv, Converges, Legal, After, Moves, Image, Allowed, Outcome, Good, Accepts, Advances, Pending, Resumable,
           HostSettles, CleanupHarmless;
      r := ReconcileForPrepare();
      if !r.Done? { return; }
      r := StrictPrepareHousekeeping();
    }

    /** The recovered disk, with nothing left to clean up. */
    ghost predicate Clear(was: Files)
      reads this, aim
    {
      && SelectorsSynced(Now()) && files.host == Disk().host && files.backups == map[]
      && (files.journal.Some? ==> Terminal(files.journal.value.phase) && files.journal.value.retired)
      && SlotsDistinct(files.current, files.previous) && files.releases == Retained(files)
      && files.allowlist == Outcome(was).allowlist && files.host == Outcome(was).host
      && files.current == Outcome(was).current && files.previous == Outcome(was).previous
      && Register(files.current, files.previous) == Abstract(was)
    }

    /** One host path of a snapshot: a file's bytes are backed up, a link or an absence only recorded. */
    method SnapshotHostArtifact(tx: TxId, index: nat, path: HostPath) returns (r: Status, record: HostRecord)
      requires Valid() && BackupId(tx, HostFile(index)) !in files.backups
      requires aim.goal == None
      modifies this
      ensures Valid() && old(steps) <= steps
      ensures files == old(files).(backups := files.backups) && disk == old(disk)
      ensures SameUnits(old(active), old(enabled), old(ready))
      ensures files.backups == old(files).backups
              || (At(files.host, path).File?
                  && files.backups == old(files).backups[BackupId(tx, HostFile(index)) := At(files.host, path).content])
      ensures r.Done? ==> HostRecordValid(files.backups, record, tx, index, path) && Capturable(At(files.host, path))
      ensures r.Done? ==> record.path == path && At(files.host, path) == Recorded(record)
      ensures r.Refused? ==> !Capturable(At(files.host, path))
      ensures calm ==> r.Done? || r.Refused?
    {
      hide Inv, Converges, Legal, After, Moves, Image, Allowed, NormalPath;
      record := HostRecord(path, AbsentRecord);
      r := Fate();
      if !r.Done? { return; }
      match At(files.host, path) {
        case Absent =>
        case File(content, meta) =>
          if meta.uid != EXPECTED_UID || meta.links != 1 { return Refused, record; }
          if meta.mode & 0xE12 != 0 || |content| > MAX_HOST_ARTIFACT_BYTES { return Refused, record; }
          var id := BackupId(tx, HostFile(index));
          BackUp(id, content);
          record := HostRecord(path, FileRecord(id, |content|, Sha256(content), meta));
        case Symlink(target, meta) =>
          if meta.uid != EXPECTED_UID || meta.links != 1 || meta.mode != 0x1FF { return Refused, record; }
          var normal := JournalValidator.IsNormal(target);
          if !normal || |target| > MAX_LINK_TARGET { return Refused, record; }
          record := HostRecord(path, SymlinkRecord(target, meta));
        case Special(_) => return Refused, record;
      }
      r := Fate();
    }

    /** Artifacts a snapshot takes: nothing, a file or a link, of bounded size, not hard-linked, with safe owner and
        mode, a link with a normal absolute target. */
    static predicate Capturable(a: Artifact) {
      match a
      case Absent => true
      case File(content, meta) => |content| <= MAX_HOST_ARTIFACT_BYTES && SafeFile(meta)
      case Symlink(target, meta) => SafeLink(meta) && NormalPath(target) && |target| <= MAX_LINK_TARGET
      case Special(_) => false
    }

    static predicate AllCapturable(host: Host, paths: seq<HostPath>) {
      forall p :: p in paths ==> Capturable(At(host, p))
    }

    /** _snapshot_host_artifacts: every path of the profile is recorded as it is, with its bytes backed up. */
    method SnapshotHostArtifacts(tx: TxId, paths: seq<HostPath>) returns (r: Status, records: seq<HostRecord>)
      requires Valid() && forall id :: id in files.backups ==> id.tx != tx
      requires aim.goal == None
      modifies this
      ensures Valid() && old(steps) <= steps
      ensures Now() == old(Now()).(vis := old(files).(backups := files.backups), dur := old(Disk()).(backups := Disk().backups))
      ensures forall id :: id in files.backups && id.tx == tx ==> id.name.HostFile?
      ensures r.Done? ==> HostRecordsValid(files.backups, records, tx, paths) && HostMatches(records, files.host)
      ensures r.Done? ==> Disk().backups == files.backups || paths == []
      ensures r.Done? ==> AllCapturable(files.host, paths)
      ensures r.Refused? ==> !AllCapturable(files.host, paths)
      ensures calm ==> r.Done? || r.Refused?
    {
      hide Valid, Inv, Converges, Legal, After, Moves, Image, Allowed, HostRecordValid, Recorded, Capturable;
      records := [];
      if paths == [] { return Done, records; }
      var index := 0;
      while index < |paths|
        invariant 0 <= index <= |paths| && |records| == index
        invariant Valid() && old(steps) <= steps
        invariant Now() == old(Now()).(vis := old(files).(backups := files.backups), dur := old(Disk()).(backups := Disk().backups))
        invariant HostRecordsValid(files.backups, records, tx, paths[..index]) && HostMatches(records, files.host)
        invariant forall i :: 0 <= i < index ==> Capturable(At(files.host, paths[i]))
        invariant forall id :: id in files.backups && id.tx == tx ==> id.name.HostFile? && id.name.index < index
      {
        ghost var before := files.backups;
        var record;
        r, record := SnapshotHostArtifact(tx, index, paths[index]);
        if !r.Done? { return; }
        HostRecordsSurvive(before, files.backups, records, tx, paths[..index]);
        records := records + [record];
        index := index + 1;
      }
      SyncBackups();
      assert paths[..|paths|] == paths;
      r := Done;
    }

    /** Backups are only added, so earlier records stay valid. */
    static lemma HostRecordsSurvive(before: map<BackupId, Bytes>, after: map<BackupId, Bytes>,
                                    records: seq<HostRecord>, tx: TxId, paths: seq<HostPath>)
      requires HostRecordsValid(before, records, tx, paths)
      requires forall id :: id in before ==> id in after && after[id] == before[id]
      ensures HostRecordsValid(after, records, tx, paths)
    {
    }

    /** _snapshot_native_boundary: the boundary state and the helper that restores it. */
    method SnapshotNativeBoundary(tx: TxId) returns (r: Status, record: NativeRecord)
      requires Valid() && forall id :: id in files.backups && id.tx == tx ==> id.name.HostFile?
      requires aim.goal == None
      modifies this
      ensures Valid() && old(steps) <= steps && !r.Refused? && (calm ==> r.Done?)
      ensures Now() == old(Now()).(vis := old(files).(backups := files.backups), dur := old(Disk()).(backups := Disk().backups))
      ensures forall id :: id in old(files).backups ==> id in files.backups && files.backups[id] == old(files).backups[id]
      ensures r.Done? ==> Disk().backups == files.backups && NativeValid(files.backups, Some(record), tx, true)
    {
      hide Inv, Converges, Legal, After, Moves, Image, Allowed, IsScript, SnapshotState;
      var helper := ReadHelper();
      var snapshot := ReadBoundary();
      var state := SnapshotState(snapshot);
      var helperId, stateId := BackupId(tx, BoundaryHelperCopy), BackupId(tx, BoundarySnapshot);
      record := NativeRecord(stateId, Sha256(snapshot), helperId, Sha256(helper),
                             if state.Some? then state.value else AbsentBoundary);
      r := Fate();
      if !r.Done? { return; }
      if |helper| > MAX_HOST_ARTIFACT_BYTES { return Failed, record; }
      BackUp(helperId, helper);
      r := Fate();
      if !r.Done? { return; }
      BackUp(stateId, snapshot);
      r := Fate();
      if !r.Done? { return; }
      if |snapshot| > MAX_HOST_ARTIFACT_BYTES || state.None? { return Failed, record; }
      SyncBackups();
      // an empty snapshot or helper, or a helper that is no script, raises with the record that names it
      if snapshot == "" || helper == "" || !IsScript(helper) { return Failed, record; }
    }

    /** Everything a rollback would need, made durable before the journal names it. */
    method SnapshotBaseline(tx: TxId, profile: Option<Profile>, boundary: bool)
        returns (r: Status, records: seq<HostRecord>, native: Option<NativeRecord>)
      requires Valid() && files.backups == map[] && (boundary ==> profile == Some(ManagedLocal))
      requires aim.goal == None
      modifies this
      ensures Valid() && old(steps) <= steps
      ensures Now() == old(Now()).(vis := old(files).(backups := files.backups), dur := old(Disk()).(backups := Disk().backups))
      ensures r.Done? ==>
                && Capturing(files, profile)
                && HostRecordsValid(files.backups, records, tx, HostPaths(files.allowlist, profile).value)
                && HostMatches(records, files.host)
                && NativeValid(files.backups, native, tx, boundary) && native.Some? == boundary
                && (Disk().backups == files.backups || (records == [] && native == None))
      ensures r.Refused? ==> !Capturing(files, profile)
      ensures calm ==> r.Done? || r.Refused?
    {
      hide Valid, Inv, Converges, Legal, After, Moves, Image, Allowed, AllCapturable;
      records, native := [], None;
      var paths := HostPaths(files.allowlist, profile);
      if paths.None? { return Refused, records, native; }
      r, records := SnapshotHostArtifacts(tx, paths.value);
      if !r.Done? || !boundary { return; }
      ghost var before := files.backups;
      var record;
      r, record := SnapshotNativeBoundary(tx);
      if !r.Done? { return; }
      HostRecordsSurvive(before, files.backups, records, tx, paths.value);
      native := Some(record);
    }

    /** The engine knows the profile, and every path of it can be captured. */
    static predicate Capturing(f: Files, profile: Option<Profile>) {
      var paths := HostPaths(f.allowlist, profile);
      paths.Some? && AllCapturable(f.host, paths.value)
    }

    /** The first journal of a transaction, then the removal of every other transaction's snapshot. */
    method OpenTransaction(n: Journal) returns (r: Status)
      requires Valid() && SelectorsSynced(Now()) && n.phase.Staging?
      requires Accepts(files.allowlist, files.backups, n) ==> Allowed(Now(), PutJournal(n))
      requires aim.goal == None
      modifies this
      ensures Valid() && old(steps) <= steps
      ensures r.Refused? <==> !Accepts(old(files).allowlist, old(files).backups, n)
      ensures calm ==> r.Done? || r.Refused?
      ensures r.Done? ==> Settled(Now())
                          && files == old(files).(journal := Some(n), backups := files.backups)
                          && Disk().releases == old(Disk()).releases
    {
      hide Valid, Disk, Inv, Converges, Legal, After, Moves, Image, Allowed, Accepts, Advances, MayForget, Log, Forget;
      r := WriteTransaction(n);
      if !r.Done? { return; }
      ValidHasInv();
      InvHasAllowlist(Now());
      OnlyOwnBackupsReferenced(files, n);
      OnlyOwnBackupsReferenced(Disk(), n);
      r := ForgetBackups(Orphans(files, n.id), true);
      if !r.Done? { return; }
      r := Kill();
    }

    static lemma OnlyOwnBackupsReferenced(f: Files, j: Journal)
      requires Good(f) && f.journal == Some(j)
      ensures forall id: BackupId :: id.tx != j.id ==> MayForget(f, id)
    {
      ForeignBackupsUnreferenced(f, j);
    }

    /** _copy_candidate: the release appears complete, by one rename. */
    method CopyCandidate(d: Digest) returns (r: Status)
      requires Valid() && (d in files.releases ==> d in Disk().releases)
      requires aim.goal == None
      modifies this
      ensures Valid() && old(steps) <= steps && !r.Refused? && (calm ==> r.Done?)
      ensures Now() == old(Now()).(vis := old(files).(releases := files.releases), dur := old(Disk()).(releases := Disk().releases))
      ensures r.Done? ==> files.releases == old(files).releases + {d} && d in Disk().releases
    {
      hide Valid, Inv, Converges, Legal, After, Moves, Image;
      if d in files.releases { return Done; }
      r := Fate();
      if !r.Done? { return; }
      StoreRelease(d);
      r := Fate();
      if !r.Done? { return; }
      SyncStore();
      r := Kill();
    }

    method StoreRelease(d: Digest)
      requires Valid() && aim.goal == None
      modifies this
      ensures Valid() && steps == old(steps) + [AddRelease(d)]
      ensures files == old(files).(releases := old(files).releases + {d}) && disk == old(disk)
      ensures SameUnits(old(active), old(enabled), old(ready))
    {
      hide Inv, Converges, Legal, After, Moves, Image;
      Record(AddRelease(d));
      files := files.(releases := files.releases + {d});
    }

    method SyncStore()
      requires Valid()
      modifies this
      ensures Valid() && steps == old(steps) + [SyncReleases]
      ensures files == old(files) && disk == old(disk).(releases := files.releases)
      ensures SameUnits(old(active), old(enabled), old(ready))
    {
      hide Inv, Converges, Legal, After, Allowed, OnCourse, Outcome;
      SyncStays(SyncReleases);
      Record(SyncReleases);
      disk := disk.(releases := files.releases);
    }

    /** Snapshots the baseline and opens a transaction over it; the candidate is not in place yet. */
    method OpenOverBaseline(tx: TxId, kind: Kind, d: Digest, profile: Option<Profile>, boundary: bool,
                            enable: seq<Unit>, start: seq<Unit>, plan: seq<Unit>) returns (r: Status, n: Journal)
      requires Valid() && SelectorsSynced(Now()) && files.host == Disk().host && files.backups == map[]
      requires files.journal.Some? ==> files.journal.value.retired
      requires SlotsDistinct(files.current, files.previous) && Some(d) != files.current
      requires kind.Archive? ==> Some(d) != files.previous
      requires kind.NMinusOne? ==> Some(d) == files.previous
      requires ListsFit(kind, profile, enable, start, plan) && (boundary ==> profile == Some(ManagedLocal))
      requires aim.goal == None
      modifies this
      ensures Valid() && old(steps) <= steps
      ensures r.Done? ==>
                && Settled(Now())
                && n == StagingRecord(tx, kind, d, files.current, files.previous, n.hostArtifacts, profile,
                                      n.native, enable, start, plan)
                && files == old(files).(journal := Some(n), backups := files.backups)
                && HostMatches(n.hostArtifacts, files.host) && Retained(files) <= Disk().releases
                && Openable(old(files), kind, profile, boundary)
      ensures r.Refused? ==> !Openable(old(files), kind, profile, boundary)
      ensures calm ==> r.Done? || r.Refused?
    {
      hide Inv, Converges, Legal, After, Moves, Image, Allowed, Accepts, Advances, HostRecordsValid, NativeValid, HostMatches,
           AllCapturable;
      var records, native;
      r, records, native := SnapshotBaseline(tx, profile, boundary);
      n := StagingRecord(tx, kind, d, files.current, files.previous, records, profile, native, enable, start, plan);
      if !r.Done? { return; }
      FirstRecordIsAccepted(files, n);
      OpensOverQuiescence(Now(), n);
      r := OpenTransaction(n);
      if !r.Done? { return; }
      RetainedIsDurable(Now(), n);
    }

    /** The baseline can be captured, and the validator takes the first record over it. */
    static predicate Openable(f: Files, kind: Kind, profile: Option<Profile>, boundary: bool) {
      Capturing(f, profile) && !(kind.SelectorOnly? && profile.Some?) && (profile == Some(ManagedLocal) ==> boundary)
    }

    /** The consumer lists of a new transaction, as the validator wants them. */
    static predicate ListsFit(kind: Kind, profile: Option<Profile>, enable: seq<Unit>, start: seq<Unit>, plan: seq<Unit>) {
      && PlanValid(kind, plan) && Canonical(enable) && Canonical(start) && Within(start, enable)
      && (profile != Some(ManagedLocal) ==> Daemon !in enable && Daemon !in start && Daemon !in plan)
    }

    /** The candidate complete in the store, then the `prepared` record. */
    method StageCandidate(n: Journal) returns (r: Status)
      requires Valid() && Settled(Now()) && files.journal == Some(n) && n.phase.Staging?
      requires n.candidate in files.releases ==> n.candidate in Disk().releases
      requires aim.goal == None
      modifies this
      ensures Valid() && old(steps) <= steps && !r.Refused? && (calm ==> r.Done?)
      ensures r.Done? ==> Settled(Now()) && n.candidate in Disk().releases
                          && files == old(files).(journal := Some(n.(phase := Prepared)),
                                                  releases := old(files).releases + {n.candidate})
    {
      hide Valid, Disk, Inv, Converges, Legal, After, Moves, Image, Allowed, Accepts, Advances, AdvancesForward;
      r := CopyCandidate(n.candidate);
      if !r.Done? { return; }
      ForwardSteps(files, n);
      r := ForwardPhase(n, Prepared);
    }

    /** The argument checks of prepare. */
    static predicate IntentsValid(kind: Kind, profile: Option<Profile>, enable: seq<Unit>, start: seq<Unit>, plan: seq<Unit>) {
      && |InOrder(enable)| == |enable| && |InOrder(start)| == |start| && |InOrder(plan)| == |plan|
      && Within(start, enable)
      && !kind.NMinusOne?
      && (kind.Archive? ==> Api in plan && Nginx in plan)
      && (kind.LegacyBaseline? || kind.SelectorOnly? ==> plan == [])
      && (profile != Some(ManagedLocal) ==> Daemon !in enable && Daemon !in start && Daemon !in plan)
    }

    /** The `staging` record of a new transaction. */
    static function StagingRecord(tx: TxId, kind: Kind, d: Digest, current: Option<Digest>, previous: Option<Digest>,
                                  records: seq<HostRecord>, profile: Option<Profile>, native: Option<NativeRecord>,
                                  enable: seq<Unit>, start: seq<Unit>, plan: seq<Unit>): Journal {
      Journal(tx, kind, Staging, d, current, previous, records, profile, native, enable, start, plan, [], [],
              false, false, false, false)
    }

    /** What a successful prepare leaves: an unarmed prepared journal over the untouched register. */
    ghost predicate PreparedOver(was: Files, tx: TxId, kind: Kind, d: Digest, profile: Option<Profile>,
                                 enable: seq<Unit>, start: seq<Unit>, plan: seq<Unit>)
      reads this, aim
    {
      PreparedAt(Abstract(was), tx, kind, d, profile, enable, start, plan)
    }

    ghost predicate PreparedAt(reg: Register, tx: TxId, kind: Kind, d: Digest, profile: Option<Profile>,
                               enable: seq<Unit>, start: seq<Unit>, plan: seq<Unit>)
      reads this, aim
    {
      && files.journal.Some?
      && var j := files.journal.value;
         && j.id == tx && j.kind == kind && j.candidate == d && j.phase.Prepared? && !j.armed && !j.daemonStarted
         && j.profile == profile && j.enable == enable && j.start == start && j.plan == plan
         && Register(j.currentBefore, j.previousBefore) == Register(files.current, files.previous) == Abstract(files) == reg
         && HostMatches(j.hostArtifacts, files.host)
         && files.releases == Retained(files) + {d} && d in Disk().releases
    }

    static lemma ValidIntentsFit(kind: Kind, profile: Option<Profile>, enable: seq<Unit>, start: seq<Unit>, plan: seq<Unit>)
      requires IntentsValid(kind, profile, enable, start, plan)
      ensures ListsFit(kind, profile, InOrder(enable), InOrder(start), InOrder(plan)) && !kind.NMinusOne?
    {
    }

    static predicate NoRepeats(units: seq<Unit>) {
      forall i, k :: 0 <= i < k < |units| ==> units[i] != units[k]
    }

    /** The record of these intents, whatever else it holds. */
    static predicate Records(n: Journal, kind: Kind, profile: Option<Profile>,
                             enable: seq<Unit>, start: seq<Unit>, plan: seq<Unit>) {
      && n.kind == kind && n.profile == profile && n.phase.Staging?
      && n.enable == InOrder(enable) && n.start == InOrder(start) && n.plan == InOrder(plan)
    }

    /** What the validator takes, prepare takes: no list without repetitions is refused if any journal that records it is
        accepted, over whatever backups. */
    static lemma AcceptedIntentsAreValid(allowlist: seq<HostPath>, backups: map<BackupId, Bytes>, n: Journal,
                                         enable: seq<Unit>, start: seq<Unit>, plan: seq<Unit>)
      requires Accepts(allowlist, backups, n) && Records(n, n.kind, n.profile, enable, start, plan) && !n.kind.NMinusOne?
      ensures IntentsValid(n.kind, n.profile, enable, start, plan)
              <==> NoRepeats(enable) && NoRepeats(start) && NoRepeats(plan)
    {
      InOrderCounts(enable);
      InOrderCounts(start);
      InOrderCounts(plan);
      assert plan != [] ==> plan[0] in InOrder(plan);
    }

    /** Some journal that records these intents is accepted. */
    static ghost predicate Recordable(allowlist: seq<HostPath>, kind: Kind, profile: Option<Profile>,
                                      enable: seq<Unit>, start: seq<Unit>, plan: seq<Unit>) {
      && NoRepeats(enable) && NoRepeats(start) && NoRepeats(plan) && !kind.NMinusOne?
      && exists backups, n :: Accepts(allowlist, backups, n) && Records(n, kind, profile, enable, start, plan)
    }

    static lemma RecordableIsValid(allowlist: seq<HostPath>, kind: Kind, profile: Option<Profile>,
                                   enable: seq<Unit>, start: seq<Unit>, plan: seq<Unit>)
      ensures Recordable(allowlist, kind, profile, enable, start, plan) ==> IntentsValid(kind, profile, enable, start, plan)
    {
      hide Accepts, IntentsValid, NoRepeats;
      if Recordable(allowlist, kind, profile, enable, start, plan) {
        var backups, n :| Accepts(allowlist, backups, n) && Records(n, kind, profile, enable, start, plan);
        AcceptedIntentsAreValid(allowlist, backups, n, enable, start, plan);
      }
    }

    static lemma InOrderCounts(units: seq<Unit>)
      ensures |InOrder(units)| == |units| <==> NoRepeats(units)
    {
      DistinctCount(units);
      DistinctCount(InOrder(units));
      assert (set u | u in InOrder(units)) == set u | u in units;
    }

    static lemma {:induction false} DistinctCount(units: seq<Unit>)
      ensures |set u | u in units| <= |units|
      ensures |set u | u in units| == |units| <==> NoRepeats(units)
    {
      if units != [] {
        var n := |units| - 1;
        DistinctCount(units[..n]);
        assert units == units[..n] + [units[n]];
        assert (set u | u in units) == (set u | u in units[..n]) + {units[n]};
        if units[n] in units[..n] {
          var i :| 0 <= i < n && units[i] == units[n];
          assert (set u | u in units) == set u | u in units[..n];
        }
      }
    }

    /** prepare.  Only a fully recovered deployment accepts a new transaction, the candidate is neither the
        current release nor, for an archive, the retained one, and everything a rollback needs is durable
        before the journal is.  An uninterrupted prepare succeeds exactly then. */
    method Prepare(source: Digest, tx: TxId, kind: Kind, profile: Option<Profile>,
                   enable: seq<Unit>, start: seq<Unit>, plan: seq<Unit>) returns (r: Status)
      requires Valid()
      requires aim.goal == None
      modifies this, aim`trusting
      ensures aim.trusting ==> old(aim.trusting) || !Resumable(old(Now())) || !HostSettles(old(Now()))
      ensures Valid() && old(steps) <= steps
      ensures !IntentsValid(kind, profile, enable, start, plan) ==> r.Refused? && Now() == old(Now())
      ensures r.Done? ==> Admits(old(files), source, kind, profile)
      ensures r.Done? ==> Recordable(old(files).allowlist, kind, profile, enable, start, plan)
      ensures calm && Recordable(old(files).allowlist, kind, profile, enable, start, plan) ==>
                Admits(old(files), source, kind, profile) ==> r.Done?
      ensures calm && IntentsValid(kind, profile, enable, start, plan) && Admits(old(files), source, kind, profile) ==> r.Done?
      ensures r.Done? ==>
                Settled(Now())
                && PreparedOver(old(files), tx, kind, source, profile, InOrder(enable), InOrder(start), InOrder(plan))
    {
      hide Valid, Disk, Inv, Converges, Legal, After, Moves, Image, Allowed, Outcome, Good, Accepts, IntentsValid, ListsFit,
           HostMatches, Pending, PreparedOver, Resumable, HostSettles, Admits, Recordable, NoRepeats;
      RecordableIsValid(files.allowlist, kind, profile, enable, start, plan);
      if !IntentsValid(kind, profile, enable, start, plan) { return Refused; }
      ValidIntentsFit(kind, profile, enable, start, plan);
      r := PrepareOrdered(source, tx, kind, profile, InOrder(enable), InOrder(start), InOrder(plan));
      if r.Done? { PreparedIsRecordable(tx, source, kind, profile, enable, start, plan, old(files)); }
    }

    lemma PreparedIsRecordable(tx: TxId, d: Digest, kind: Kind, profile: Option<Profile>,
                               enable: seq<Unit>, start: seq<Unit>, plan: seq<Unit>, was: Files)
      requires Valid() && PreparedOver(was, tx, kind, d, profile, InOrder(enable), InOrder(start), InOrder(plan))
      requires IntentsValid(kind, profile, enable, start, plan) && files.allowlist == was.allowlist
      ensures Recordable(was.allowlist, kind, profile, enable, start, plan)
    {
      hide Inv, Good, Legal, After, Accepts;
      ValidHasInv();
      InvHasAllowlist(Now());
      var j := files.journal.value;
      var n := j.(phase := Staging);
      UnarmedIsAccepted(files, j);
      InOrderCounts(enable);
      InOrderCounts(start);
      InOrderCounts(plan);
      assert Records(n, kind, profile, enable, start, plan);
    }

    static lemma UnarmedIsAccepted(f: Files, j: Journal)
      requires Good(f) && f.journal == Some(j) && j.phase.Prepared? && !j.armed && !j.daemonStarted
      ensures Accepts(f.allowlist, f.backups, j.(phase := Staging))
    {
      RemarkedIsAccepted(f, j, j.(phase := Staging));
    }

    /** What recovery of `was` leaves takes a new transaction with this candidate. */
    static predicate Admits(was: Files, source: Digest, kind: Kind, profile: Option<Profile>) {
      && !Pending(was)
      && Some(source) != Outcome(was).current && (kind.Archive? ==> Some(source) != Outcome(was).previous)
      && Capturing(Outcome(was), profile) && !(kind.SelectorOnly? && profile.Some?)
    }

    /** prepare behind its argument checks. */
    method PrepareOrdered(source: Digest, tx: TxId, kind: Kind, profile: Option<Profile>,
                          enable: seq<Unit>, start: seq<Unit>, plan: seq<Unit>) returns (r: Status)
      requires Valid()
      requires ListsFit(kind, profile, enable, start, plan) && !kind.NMinusOne?
      requires aim.goal == None
      modifies this, aim`trusting
      ensures aim.trusting ==> old(aim.trusting) || !Resumable(old(Now())) || !HostSettles(old(Now()))
      ensures Valid() && old(steps) <= steps
      ensures r.Done? ==> Admits(old(files), source, kind, profile)
      ensures calm && Admits(old(files), source, kind, profile) ==> r.Done?
      ensures r.Done? ==> Settled(Now()) && PreparedOver(old(files), tx, kind, source, profile, enable, start, plan)
      ensures r.Done? ==> files.allowlist == old(files).allowlist
    {
      hide Valid, Disk, Inv, Converges, Legal, After, Moves, Image, Allowed, Outcome, Good, Accepts, Advances, AdvancesForward,
           HostMatches, Pending, ListsFit, Resumable, HostSettles, AllCapturable, PreparedAt;
      r := ClearForPrepare();
      if !r.Done? { return; }
      SameCapture(files, Outcome(old(files)), profile);
      OutcomeKeepsAllowlist(old(files));
      r := Fate();
      if !r.Done? { return; }
      if Some(source) == files.current || (kind.Archive? && Some(source) == files.previous) { return Refused; }
      // the capacity preflight may raise
      r := Raise();
      if !r.Done? { return; }
      r := OpenAndStage(source, tx, kind, profile, enable, start, plan);
    }

    /** The `staging` record over the cleared deployment, then its candidate. */
    method OpenAndStage(d: Digest, tx: TxId, kind: Kind, profile: Option<Profile>,
                        enable: seq<Unit>, start: seq<Unit>, plan: seq<Unit>) returns (r: Status)
      requires Valid() && SelectorsSynced(Now()) && files.host == Disk().host && files.backups == map[]
      requires (files.journal.Some? ==> files.journal.value.retired) && files.releases == Retained(files)
      requires SlotsDistinct(files.current, files.previous) && Some(d) != files.current
      requires ListsFit(kind, profile, enable, start, plan) && !kind.NMinusOne? && (kind.Archive? ==> Some(d) != files.previous)
      requires aim.goal == None
      modifies this
      ensures Valid() && old(steps) <= steps && (r.Done? ==> files.allowlist == old(files).allowlist)
      ensures r.Done? ==> Openable(old(files), kind, profile, profile == Some(ManagedLocal))
      ensures r.Refused? ==> !Openable(old(files), kind, profile, profile == Some(ManagedLocal))
      ensures calm ==> r.Done? || r.Refused?
      ensures r.Done? ==> Settled(Now()) && PreparedAt(Register(old(files).current, old(files).previous),
                                                       tx, kind, d, profile, enable, start, plan)
    {
      hide Valid, Disk, Inv, Converges, Legal, After, Moves, Image, Allowed, Outcome, Good, Accepts, Advances, AdvancesForward,
           HostMatches, ListsFit, AllCapturable, Openable;
      var n;
      r, n := OpenOverBaseline(tx, kind, d, profile, profile == Some(ManagedLocal), enable, start, plan);
      if !r.Done? { return; }
      r := StageCandidate(n);
    }

    static lemma OutcomeKeepsAllowlist(f: Files)
      ensures Outcome(f).allowlist == f.allowlist
    {
    }

    static lemma SameCapture(f: Files, g: Files, profile: Option<Profile>)
      requires f.host == g.host
      requires f.allowlist == g.allowlist
      ensures Capturing(f, profile) == Capturing(g, profile)
    {
    }

    /** The validator takes a fresh staging record exactly when a selector-only transaction names no host
        profile and a managed-local one carries its boundary. */
    static lemma FirstRecordIsAccepted(f: Files, n: Journal)
      requires n == StagingRecord(n.id, n.kind, n.candidate, f.current, f.previous, n.hostArtifacts, n.profile,
                                  n.native, n.enable, n.start, n.plan)
      requires SlotsDistinct(f.current, f.previous) && Some(n.candidate) != f.current
      requires n.kind.Archive? ==> Some(n.candidate) != f.previous
      requires HostPaths(f.allowlist, n.profile).Some?
      requires HostRecordsValid(f.backups, n.hostArtifacts, n.id, HostPaths(f.allowlist, n.profile).value)
      requires NativeValid(f.backups, n.native, n.id, n.native.Some?) && (n.native.Some? ==> n.profile == Some(ManagedLocal))
      requires ListsFit(n.kind, n.profile, n.enable, n.start, n.plan)
      ensures Accepts(f.allowlist, f.backups, n) <==>
              !(n.kind.SelectorOnly? && n.profile.Some?) && (n.profile == Some(ManagedLocal) ==> n.native.Some?)
    {
    }

    /** A first record over a recovered deployment is a legal opening. */
    static lemma OpensOverQuiescence(w: World, n: Journal)
      requires SelectorsSynced(w) && (w.vis.journal.Some? ==> w.vis.journal.value.retired)
      requires w.vis.host == w.dur.host
      requires w.vis.backups == w.dur.backups || (n.hostArtifacts == [] && n.native == None)
      requires n == StagingRecord(n.id, n.kind, n.candidate, w.vis.current, w.vis.previous, n.hostArtifacts, n.profile,
                                  n.native, n.enable, n.start, n.plan)
      requires n.kind.NMinusOne? ==> n.previousBefore == Some(n.candidate)
      requires HostMatches(n.hostArtifacts, w.vis.host)
      ensures Accepts(w.vis.allowlist, w.vis.backups, n) ==> Allowed(w, PutJournal(n))
    {
      hide Accepts, HostMatches, Allowed;
      if Accepts(w.vis.allowlist, w.vis.backups, n) {
        MayOpen(w, n);
      }
    }

    /** A selected release is as durable as the selector that names it. */
    lemma RetainedIsDurable(w: World, j: Journal)
      requires Inv(w) && Settled(w) && w.vis.journal == Some(j) && j.phase.Staging?
      ensures Retained(w.vis) <= w.dur.releases
    {
      InvHasAllowlist(w);
    }

    /** prepare_previous: both slots are needed, the retained release is the candidate.  No boundary is
        snapshotted, so the first journal write refuses the managed-local profile. */
    method PreparePrevious(tx: TxId, profile: Option<Profile>) returns (r: Status)
      requires Valid()
      requires aim.goal == None
      modifies this, aim`trusting
      ensures aim.trusting ==> old(aim.trusting) || !Resumable(old(Now())) || !HostSettles(old(Now()))
      ensures Valid() && old(steps) <= steps
      ensures r.Done? ==> AdmitsPrevious(old(files), profile)
      ensures calm && AdmitsPrevious(old(files), profile) ==> r.Done?
      ensures r.Done? ==> Settled(Now())
                          && PreparedOver(old(files), tx, NMinusOne, Abstract(old(files)).retained.value,
                                          profile, [], [], [Api, Nginx])
    {
      hide Valid, Disk, Inv, Converges, Legal, After, Moves, Image, Allowed, Outcome, Good, Accepts, Advances, AdvancesForward,
           HostMatches, Pending, Resumable, HostSettles, AllCapturable, CleanupHarmless, Quiet, PreparedAt;
      r := ReconcileForPrepare();
      if !r.Done? { return; }
      SameCapture(files, Outcome(old(files)), profile);
      if files.current.None? || files.previous.None? { return Refused; }
      r := StrictPrepareHousekeeping();
      if !r.Done? { return; }
      SameCapture(files, Outcome(old(files)), profile);
      r := Fate();
      if !r.Done? { return; }
      r := OpenPrevious(tx, profile);
    }

    /** The `staging` record over the cleared deployment; its candidate is there already. */
    method OpenPrevious(tx: TxId, profile: Option<Profile>) returns (r: Status)
      requires Valid() && SelectorsSynced(Now()) && files.host == Disk().host && files.backups == map[]
      requires (files.journal.Some? ==> files.journal.value.retired) && files.releases == Retained(files)
      requires SlotsDistinct(files.current, files.previous) && files.current.Some? && files.previous.Some?
      requires aim.goal == None
      modifies this
      ensures Valid() && old(steps) <= steps
      ensures r.Done? ==> Openable(old(files), NMinusOne, profile, false)
      ensures r.Refused? ==> !Openable(old(files), NMinusOne, profile, false)
      ensures calm ==> r.Done? || r.Refused?
      ensures r.Done? ==> Settled(Now()) && PreparedAt(Register(old(files).current, old(files).previous),
                                                       tx, NMinusOne, old(files).previous.value, profile, [], [], [Api, Nginx])
    {
      hide Valid, Disk, Inv, Converges, Legal, After, Moves, Image, Allowed, Outcome, Good, Accepts, Advances, AdvancesForward,
           HostMatches, AllCapturable, Openable;
      var n;
      r, n := OpenOverBaseline(tx, NMinusOne, files.previous.value, profile, false, [], [], [Api, Nginx]);
      if !r.Done? { return; }
      PreviousIsStored(files, Disk());
      ForwardSteps(files, n);
      r := ForwardPhase(n, Prepared);
    }

    /** What recovery of `was` leaves has a retained release to return to. */
    static predicate AdmitsPrevious(was: Files, profile: Option<Profile>) {
      && !Pending(was)
      && Abstract(was).selected.Some? && Abstract(was).retained.Some?
      && Capturing(Outcome(was), profile) && profile != Some(ManagedLocal)
    }

    static lemma PreviousIsStored(f: Files, g: Files)
      requires f.previous.Some? && Retained(f) <= g.releases
      ensures f.previous.value in g.releases
    {
    }
  }
}
