/** What happens when recovery starts over writes a killed process never fsynced and the machine then loses
    power: Resumable is exactly the condition under which every crash during and after the reconcile recovers. */
module UnflushedRestart {
  import opened ReleaseTypes
  import opened JournalRules
  import opened Protocol
  import opened CrashModel
  import opened Recovery
  import opened Runs
  import opened ReconcileScript

  // ---- a reconcile that every crash survives ----

  /** The selector checks a reconcile of this disk makes before it trusts the journal. */
  predicate ChecksPass(g: Files) {
    match g.journal
    case None => SlotsDistinct(g.current, g.previous)
    case Some(j) =>
      && (CommitIntent(j) ==> AtCandidate(j, g.current, g.previous))
      && (!CommitIntent(j) && (!j.armed || j.phase.StartingBaseline? || j.phase.RolledBack?) ==>
            AtBaseline(j, g.current, g.previous))
  }

  /** The journal loads, every release it or a selector names is there, the checks pass, and recovery selects `r`. */
  predicate RecoversTo(g: Files, r: Register) {
    && (g.journal.Some? ==> Accepts(g.allowlist, g.backups, g.journal.value))
    && Needed(g) <= g.releases
    && ChecksPass(g)
    && Register(Outcome(g).current, Outcome(g).previous) == r
  }

  predicate EnablesUnit(steps: seq<Step>) {
    exists i :: 0 <= i < |steps| && steps[i].EnableUnit?
  }

  /** Every disk a crash leaves after the first writes of the reconcile recovers to a register the start could
      recover to, and carries the commit intent once a unit was enabled for it. */
  ghost predicate PrefixSurvives(w: World, steps: seq<Step>) {
    forall g :: Image(After(w, steps), g) ==>
      && (exists f :: Image(w, f) && RecoversTo(g, Abstract(f)))
      && (EnablesUnit(steps) ==> g.journal.Some? && CommitIntent(g.journal.value))
  }

  /** After the whole reconcile it recovers to the register the reconcile left. */
  ghost predicate CompletionSurvives(w: World, steps: seq<Step>) {
    forall g :: Image(After(w, steps), g) ==> RecoversTo(g, Abstract(w.vis))
  }

  /** Wherever the reconcile is cut short, whatever cleanup it had to defer, and whenever the power fails. */
  ghost predicate EveryCrashSurvives(w: World) {
    forall c1, c2 ::
      && (forall k :: 0 <= k <= |Script(w.vis, c1, c2)| ==> PrefixSurvives(w, Script(w.vis, c1, c2)[..k]))
      && CompletionSurvives(w, Script(w.vis, c1, c2))
  }

  // ---- sufficient ----

  predicate Plain(s: Step) {
    !Commits(s) && !Opening(s) && !s.Crash?
  }

  predicate AllPlain(steps: seq<Step>) {
    forall i :: 0 <= i < |steps| ==> Plain(steps[i])
  }

  predicate AllTame(steps: seq<Step>) {
    forall i :: 0 <= i < |steps| ==> Plain(steps[i]) && !steps[i].EnableUnit?
  }

  lemma {:induction false} PlainHasNoIntents(steps: seq<Step>)
    requires AllPlain(steps)
    ensures Intents(steps) == []
  {
    if steps != [] {
      PlainHasNoIntents(Front(steps));
    }
  }

  /** The visible deployment keeps its register through writes that publish nothing. */
  lemma {:induction false} VisibleKeepsRegister(w: World, steps: seq<Step>)
    requires Inv(w) && Legal(w, steps) && AllPlain(steps)
    ensures Abstract(After(w, steps).vis) == Abstract(w.vis)
  {
    hide Good, Image, InStep;
    if steps != [] {
      VisibleKeepsRegister(w, Front(steps));
      RunKeepsInv(w, Front(steps));
      VisibleStep(After(w, Front(steps)), Last(steps));
    }
  }

  lemma VisibleStep(w: World, s: Step)
    requires Inv(w) && Allowed(w, s) && !Commits(s) && !s.Crash?
    ensures Abstract(Do(w, s).vis) == Abstract(w.vis)
  {
    hide Allowed, Good, Moves, InStep, Image, Inv;
    if s.PutJournal? {
      InvHasAllowlist(w);
      VisibleMoves(w, s.journal);
      MoveRefines(w.vis, s.journal);
    } else if s.PutSelector? {
      SelectsUnderJournal(w, s.slot, s.digest);
    }
  }

  lemma VisibleMoves(w: World, n: Journal)
    requires Inv(w) && Allowed(w, PutJournal(n))
    ensures Moves(w.vis, n)
  {
    hide Moves;
    InvHasAllowlist(w);
    assert Image(w, w.vis);
  }

  lemma SelectsUnderJournal(w: World, slot: Slot, d: Option<Digest>)
    requires Inv(w) && Allowed(w, PutSelector(slot, d))
    ensures w.vis.journal.Some?
  {
    InvHasAllowlist(w);
    assert Image(w, w.vis) && MaySelect(w.vis, slot, d);
  }

  lemma GoodRecovers(g: Files)
    requires Good(g)
    ensures RecoversTo(g, Abstract(g))
  {
    hide Outcome, Needed;
    NeededIsStored(g);
    OutcomeSelectsRegister(g);
    if g.journal.Some? {
      SelectorsOfJournal(g, g.journal.value);
    }
  }

  lemma LegalPrefixSurvives(w: World, steps: seq<Step>)
    requires Inv(w) && Legal(w, steps) && AllPlain(steps)
    requires EnablesUnit(steps) ==> w.vis.journal.Some? && Committing(w, w.vis.journal.value)
    ensures PrefixSurvives(w, steps)
  {
    hide Good, InStep, RecoversTo, Legal, Committing, Allowed;
    RunKeepsInv(w, steps);
    PlainHasNoIntents(steps);
    if EnablesUnit(steps) {
      CommitStays(w, steps, w.vis.journal.value);
    }
    forall g | Image(After(w, steps), g)
      ensures exists f :: Image(w, f) && RecoversTo(g, Abstract(f))
      ensures EnablesUnit(steps) ==> g.journal.Some? && CommitIntent(g.journal.value)
    {
      var f, published := RunRefinesRegister(w, steps, g);
      assert published == [] && Abstract(g) == Abstract(f);
      EveryImageGood(After(w, steps), g);
      GoodRecovers(g);
      if EnablesUnit(steps) {
        CommittingHasIntent(After(w, steps), w.vis.journal.value, g);
      }
    }
  }

  lemma EveryImageGood(w: World, g: Files)
    requires Inv(w) && Image(w, g)
    ensures Good(g)
  {
  }

  lemma CommittingHasIntent(w: World, j: Journal, g: Files)
    requires Committing(w, j) && Image(w, g)
    ensures g.journal.Some? && CommitIntent(g.journal.value)
  {
  }

  /** All disks a crash may leave have the visible register. */
  ghost predicate Uniform(w: World) {
    forall f :: Image(w, f) ==> Abstract(f) == Abstract(w.vis)
  }

  lemma UniformCompletes(w: World, steps: seq<Step>)
    requires Inv(w) && Legal(w, steps) && Uniform(w) && AllPlain(steps)
    ensures CompletionSurvives(w, steps)
  {
    hide Good, InStep, RecoversTo, Legal, Allowed;
    RunKeepsInv(w, steps);
    PlainHasNoIntents(steps);
    forall g | Image(After(w, steps), g) ensures RecoversTo(g, Abstract(w.vis)) {
      var f, published := RunRefinesRegister(w, steps, g);
      assert published == [] && Abstract(g) == Abstract(f);
      EveryImageGood(After(w, steps), g);
      GoodRecovers(g);
    }
  }

  /** A record that was fsynced on the way makes the register durable. */
  lemma LoggedCompletes(w: World, a: seq<Step>, n: Journal, b: seq<Step>)
    requires Inv(w) && Legal(w, a + Log(n) + b)
    requires AllPlain(a + Log(n) + b)
    ensures CompletionSurvives(w, a + Log(n) + b)
  {
    hide Good, InStep, RecoversTo, Legal, Allowed, After;
    var s := a + Log(n);
    assert (s + b)[..|s|] == s;
    LegalPrefix(w, s + b, |s|);
    assert forall i :: 0 <= i < |s| ==> s[i] == (s + b)[i];
    VisibleKeepsRegister(w, s);
    RunKeepsInv(w, s);
    var w1 := After(w, s);
    LoggedIsSynced(w, a, n);
    SyncedIsUniform(w1);
    LegalRest(w, s, b);
    assert forall i :: 0 <= i < |b| ==> b[i] == (s + b)[|s| + i];
    UniformCompletes(w1, b);
  }

  lemma {:induction false} LegalRest(w: World, a: seq<Step>, b: seq<Step>)
    requires Legal(w, a + b) && a != [] && !Last(a).StopUnits? && !Last(a).RestoreNative?
    ensures Legal(After(w, a), b) && After(w, a + b) == After(After(w, a), b)
  {
    hide Allowed;
    if b == [] {
      assert a + b == a;
    } else {
      assert Front(a + b) == a + Front(b);
      assert Front(b) == [] ==> a + Front(b) == a;
      LegalRest(w, a, Front(b));
    }
  }

  lemma LoggedIsSynced(w: World, a: seq<Step>, n: Journal)
    ensures After(w, a + Log(n)).vis.journal == After(w, a + Log(n)).dur.journal == Some(n)
  {
    assert a + Log(n) == (a + [PutJournal(n)]) + [SyncState];
    AfterOneMore(w, a, PutJournal(n));
    AfterOneMore(w, a + [PutJournal(n)], SyncState);
  }

  lemma SyncedIsUniform(w: World)
    requires w.vis.journal.Some? && w.vis.journal == w.dur.journal
    ensures Uniform(w)
  {
  }

  lemma {:induction false} RestoresAreTame(records: seq<HostRecord>)
    ensures AllTame(Restores(records))
  {
    if records != [] {
      RestoresAreTame(records[..|records| - 1]);
    }
  }

  lemma {:induction false} BaselineStartsAreTame(j: Journal, units: seq<Unit>)
    ensures AllTame(BaselineStarts(j, units))
  {
    if units != [] {
      BaselineStartsAreTame(j, units[..|units| - 1]);
    }
  }

  lemma FinishIsTame(f: Files, j: Journal, c1: Cleanup, c2: Cleanup)
    requires Terminal(j.phase)
    ensures AllTame(Finish(f, j, c1, c2))
  {
    hide Retained, Own, Orphans;
  }

  lemma RewindIsTame(f: Files, j: Journal)
    ensures AllTame(Rewind(f, j))
  {
    hide Restores, EffectivePlan, ManagedDaemonPlan, HostRestorePlanned, NativeRestorePlanned;
    RestoresAreTame(j.hostArtifacts);
    assert AllTame(Quiesce(j));
    assert AllTame(Unselect(f, j));
    assert AllTame(RestoreBoundary(j));
    assert AllTame(RestoreHosts(j));
  }

  /** A reconcile publishes nothing, and enables units only to finalize. */
  lemma ScriptIsPlain(f: Files, c1: Cleanup, c2: Cleanup)
    ensures AllPlain(Script(f, c1, c2))
    ensures !(f.journal.Some? && f.journal.value.phase.Finalizing? && f.journal.value.enable != []) ==>
              AllTame(Script(f, c1, c2))
  {
    hide Finish, Rollback, Finalization, BaselineStarts, Forget;
    if f.journal.None? {
      ForgetIsTame(f.backups.Keys, c2);
    } else {
      var j := f.journal.value;
      if Terminal(j.phase) { FinishIsTame(f, j, c1, c2); }
      FinishIsTame(f, UnarmedRollback(j), c1, c2);
      FinalizationIsPlain(f, j, c1, c2);
      RollbackIsTame(f, j, c1, c2);
      BaselineStartsAreTame(j, j.activeBefore);
    }
  }

  lemma FinalizationIsPlain(f: Files, j: Journal, c1: Cleanup, c2: Cleanup)
    ensures AllPlain(Finalization(f, j, c1, c2))
    ensures j.enable == [] ==> AllTame(Finalization(f, j, c1, c2))
  {
    hide Finish;
    FinishIsTame(f, CommitRecord(j), c1, c2);
  }

  lemma RollbackIsTame(f: Files, j: Journal, c1: Cleanup, c2: Cleanup)
    ensures AllTame(Rollback(f, j, c1, c2))
  {
    hide Finish, Rewind, BaselineStarts, Undone;
    FinishIsTame(Undone(f, j), RollbackRecord(j), c1, c2);
    RewindIsTame(f, j);
    BaselineStartsAreTame(StartingRecord(j), j.activeBefore);
  }

  lemma ForgetIsTame(ids: set<BackupId>, c: Cleanup)
    ensures AllTame(Forget(ids, c))
  {
  }

  lemma ResumedPrefixSurvives(w: World, c1: Cleanup, c2: Cleanup, k: nat)
    requires Inv(w) && Resumable(w) && k <= |Script(w.vis, c1, c2)|
    ensures PrefixSurvives(w, Script(w.vis, c1, c2)[..k])
  {
    hide Good, InStep, Legal, After, Script, PrefixSurvives, Inv;
    var steps := Script(w.vis, c1, c2);
    ScriptIsLegal(w, c1, c2);
    ScriptIsPlain(w.vis, c1, c2);
    LegalPrefix(w, steps, k);
    if EnablesUnit(steps[..k]) {
      assert !AllTame(steps);
      assert Committing(w, w.vis.journal.value);
    }
    LegalPrefixSurvives(w, steps[..k]);
  }

  lemma ResumedCompletionSurvives(w: World, c1: Cleanup, c2: Cleanup)
    requires Inv(w) && Resumable(w)
    ensures CompletionSurvives(w, Script(w.vis, c1, c2))
  {
    hide Good, Legal, After, CompletionSurvives, Finish, Rewind, BaselineStarts, Forget, Prune, Undone, Stranded,
         CleanupHarmless;
    ScriptIsLegal(w, c1, c2);
    ScriptIsPlain(w.vis, c1, c2);
    var steps := Script(w.vis, c1, c2);
    if w.vis.journal.None? {
      NoJournalIsUniform(w);
      UniformCompletes(w, steps);
    } else {
      var j := w.vis.journal.value;
      var retire := Log(Retire(j));
      LiveShape(w, j);
      if j.phase.Finalizing? {
        LoggedCompletes(w, Enables(j.enable) + CommitStarts(j), CommitRecord(j), Finish(w.vis, CommitRecord(j), c1, c2));
      } else if j.phase.StartingBaseline? {
        StartingIsUniform(w, j);
        UniformCompletes(w, steps);
      } else if Terminal(j.phase) && j.retired {
        RetiredIsUniform(w, j);
        UniformCompletes(w, steps);
      } else if Terminal(j.phase) {
        RetirementCompletes(w, j, c1, c2);
      } else if !j.armed {
        assert steps == [] + Log(UnarmedRollback(j)) + Finish(w.vis, UnarmedRollback(j), c1, c2);
        LoggedCompletes(w, [], UnarmedRollback(j), Finish(w.vis, UnarmedRollback(j), c1, c2));
      } else if j.activeBefore != [] {
        LoggedCompletes(w, Rewind(w.vis, j), StartingRecord(j), BaselineStarts(StartingRecord(j), j.activeBefore));
      } else {
        LoggedCompletes(w, Rewind(w.vis, j), RollbackRecord(j), Finish(Undone(w.vis, j), RollbackRecord(j), c1, c2));
      }
    }
  }

  lemma RetirementCompletes(w: World, j: Journal, c1: Cleanup, c2: Cleanup)
    requires Inv(w) && Legal(w, Finish(w.vis, j, c1, c2)) && AllPlain(Finish(w.vis, j, c1, c2)) && !j.retired
    ensures CompletionSurvives(w, Finish(w.vis, j, c1, c2))
  {
    hide Inv, Legal, After, CompletionSurvives, Forget, Prune, Own, Orphans, Log, Retire;
    var rest := Forget(Own(w.vis, j.id), c1) + Forget(Orphans(w.vis, j.id), c2) + Prune(w.vis);
    assert Finish(w.vis, j, c1, c2) == [] + Log(Retire(j)) + rest;
    LoggedCompletes(w, [], Retire(j), rest);
  }

  lemma NoJournalIsUniform(w: World)
    requires Inv(w) && w.vis.journal.None?
    ensures Uniform(w)
  {
  }

  lemma StartingIsUniform(w: World, j: Journal)
    requires Inv(w) && w.vis.journal == Some(j) && j.phase.StartingBaseline?
    ensures Uniform(w)
  {
    hide Good;
  }

  lemma RetiredIsUniform(w: World, j: Journal)
    requires Inv(w) && Resumable(w) && w.vis.journal == Some(j) && j.retired
    ensures Uniform(w)
  {
    InvHasAllowlist(w);
  }

  // ---- when a register can be lost ----

  /** A crash changes the register only while a commit intent waits for an fsync: as long as none was written since the
      journal was last fsynced or the machine last crashed, all disks a crash may leave agree with the visible one. */
  lemma {:induction false} OnlyRecentIntentsAreLost(w: World, steps: seq<Step>)
    requires Inv(w) && Legal(w, steps) && Uniform(w) && Recent(steps) == []
    ensures Uniform(After(w, steps))
  {
    hide Inv, Allowed, Uniform, Good;
    if steps != [] {
      var before, s := After(w, Front(steps)), Last(steps);
      RunKeepsInv(w, Front(steps));
      RunKeepsInv(w, steps);
      if SyncsJournal(s) {
        SyncIsUniform(before, s);
      } else if s.Crash? {
        CrashIsUniform(before, s.image);
      } else {
        NoneIsRecent(steps);
        OnlyRecentIntentsAreLost(w, Front(steps));
        UniformStep(before, s);
      }
    }
  }

  lemma NoneIsRecent(steps: seq<Step>)
    requires steps != [] && Recent(steps) == [] && !SyncsJournal(Last(steps)) && !Last(steps).Crash?
    ensures Recent(Front(steps)) == [] && !Commits(Last(steps))
  {
    assert |Recent(Front(steps))| + (if Commits(Last(steps)) then 1 else 0) == |Recent(steps)|;
  }

  lemma SyncIsUniform(w: World, s: Step)
    requires SyncsJournal(s) && Inv(Do(w, s))
    ensures Uniform(Do(w, s))
  {
    hide Inv;
    if Do(w, s).vis.journal.Some? {
      SyncedIsUniform(Do(w, s));
    } else {
      NoJournalIsUniform(Do(w, s));
    }
  }

  lemma CrashIsUniform(w: World, image: Files)
    ensures Uniform(Do(w, Crash(image)))
  {
  }

  lemma UniformStep(w: World, s: Step)
    requires Inv(w) && Allowed(w, s) && Uniform(w) && !Commits(s) && !s.Crash?
    ensures Uniform(Do(w, s))
  {
    hide Inv, Allowed, Good, Image;
    VisibleStep(w, s);
    forall g | Image(Do(w, s), g) ensures Abstract(g) == Abstract(Do(w, s).vis) {
      var f := StepRefines(w, s, g);
      assert Abstract(f) == Abstract(w.vis);
    }
  }

  // ---- a planned host restoration ----

  /** Whatever a reconcile leaves of a transaction that did not commit, every path it recorded holds what was recorded. */
  lemma OutcomeRestoresHost(g: Files, records: seq<HostRecord>)
    requires Good(g) && KeepsRecords(g, records) && !g.journal.value.retired && !CommitIntent(g.journal.value)
    ensures HostMatches(records, Outcome(g).host)
  {
    hide HostMatches, Retained, RestoreAll;
    var j := g.journal.value;
    AcceptedPathsUnique(g, j);
    RestoreAllAt(g.host, records);
    LiveOutcomeHost(g, j);
  }

  lemma LiveOutcomeHost(g: Files, j: Journal)
    requires Good(g) && g.journal == Some(j) && j.kind.Archive? && !j.retired && !CommitIntent(j)
    ensures if RollbackEntry(j) && HostRestorePlanned(j) then Outcome(g).host == RestoreAll(g.host, j.hostArtifacts)
            else Outcome(g).host == g.host && HostMatches(j.hostArtifacts, g.host)
  {
    hide HostMatches, Accepts, Retained, RestoreAll, ReleasesKept, SelectorsFit;
  }

  /** The exact host survives a kill in mid-rollback, a restart over whatever it left unsynced, and a power loss at any
      write of that restart: recovery of the disk puts every recorded path back to what it held at the opening. */
  lemma RestartedRollbackRestoresHost(w: World, steps: seq<Step>, j: Journal, c1: Cleanup, c2: Cleanup, k: nat, g: Files)
    requires Inv(w) && Legal(w, steps) && (forall f :: Image(w, f) ==> f.journal == Some(j))
    requires j.kind.Archive? && j.phase.Staging? && forall i :: 0 <= i < |steps| ==> !Opening(steps[i])
    requires Resumable(After(w, steps)) && k <= |Script(After(w, steps).vis, c1, c2)|
    requires Image(After(After(w, steps), Script(After(w, steps).vis, c1, c2)[..k]), g)
    requires g.journal.Some? && !g.journal.value.retired && !CommitIntent(g.journal.value)
    ensures forall i :: 0 <= i < |j.hostArtifacts| ==>
              At(Outcome(g).host, j.hostArtifacts[i].path) == At(w.vis.host, j.hostArtifacts[i].path)
  {
    hide Inv, Legal, After, Good, Image, Script, Outcome, Resumable, InStep;
    var x := After(w, steps);
    var more := Script(x.vis, c1, c2)[..k];
    RunKeepsInv(w, steps);
    ScriptIsLegal(x, c1, c2);
    ScriptIsPlain(x.vis, c1, c2);
    LegalPrefix(x, Script(x.vis, c1, c2), k);
    RunKeepsInv(x, more);
    InvHasAllowlist(w);
    VisibleRecords(w, j);
    RecordsStay(w, steps, j.hostArtifacts);
    RecordsStay(x, more, j.hostArtifacts);
    EveryImageGood(After(x, more), g);
    OutcomeRestoresHost(g, j.hostArtifacts);
  }

  lemma VisibleRecords(w: World, j: Journal)
    requires Inv(w) && (forall f :: Image(w, f) ==> f.journal == Some(j)) && j.kind.Archive? && j.phase.Staging?
    ensures forall f :: Image(w, f) ==> KeepsRecords(f, j.hostArtifacts)
    ensures HostMatches(j.hostArtifacts, w.vis.host)
  {
    VisibleIsImage(w);
    assert Good(w.vis);
  }

  // ---- necessary ----

  /** A commit intent that is not durable: its first enabled unit outlives the commit. */
  lemma LostIntentFails(w: World, j: Journal)
    requires Inv(w) && w.vis.journal == Some(j) && j.phase.Finalizing? && j.enable != [] && w.dur.journal != Some(j)
    ensures !EveryCrashSurvives(w)
  {
    hide Good, RecoversTo, Finish;
    InvHasAllowlist(w);
    var steps := Script(w.vis, Cleaned, Cleaned);
    var first := EnableUnit(j.enable[0]);
    assert steps[..1] == [first];
    AfterOne(w, first);
    assert Image(After(w, steps[..1]), w.dur);
    assert steps[..1][0].EnableUnit?;
    assert !PrefixSurvives(w, steps[..1]);
  }

  /** A journal that names a missing backup never loads again. */
  lemma MissingBackupIsRejected(allowlist: seq<HostPath>, backups: map<BackupId, Bytes>, j: Journal, id: BackupId)
    requires References(j, id) && id !in backups
    ensures !Accepts(allowlist, backups, j)
  {
  }

  /** A disk whose durable journal lost a backup it references. */
  lemma LostBackupFails(w: World, ids: set<BackupId>, id: BackupId, steps: seq<Step>)
    requires Inv(w) && id in ids && !MayForget(w.dur, id) && steps == [DropBackups(ids)]
    ensures !PrefixSurvives(w, steps)
  {
    hide Good, Accepts, Outcome;
    AfterOne(w, DropBackups(ids));
    var g := w.dur.(backups := w.dur.backups - {id});
    assert Image(After(w, steps), g);
    MissingBackupIsRejected(g.allowlist, g.backups, g.journal.value, id);
  }

  lemma ForgetFirst(f: Files, j: Journal, id: BackupId) returns (c1: Cleanup, ids: set<BackupId>)
    requires f.journal == Some(j) && Terminal(j.phase) && j.retired && id in f.backups
    ensures id in ids && Script(f, c1, Cleaned) != [] && Script(f, c1, Cleaned)[..1] == [DropBackups(ids)]
  {
    hide Prune;
    if id.tx == j.id {
      c1, ids := Cleaned, Own(f, j.id);
    } else {
      c1, ids := Deferred({}), Orphans(f, j.id);
    }
    assert id in ids;
  }

  /** A disk whose durable journal lost a release it names. */
  lemma LostReleaseFails(w: World, j: Journal, d: Digest)
    requires Inv(w) && w.vis.journal == Some(j) && Terminal(j.phase) && j.retired
    requires d in w.vis.releases - Retained(w.vis) && !MayPrune(w.dur, d)
    ensures !EveryCrashSurvives(w)
  {
    hide Good, Outcome;
    var c := Deferred({});
    var steps := Script(w.vis, c, c);
    var ds := w.vis.releases - Retained(w.vis);
    OnlyPrune(w.vis, j);
    assert steps[..1] == [DropReleases(ds)];
    AfterOne(w, DropReleases(ds));
    var g := w.dur.(releases := w.dur.releases - {d});
    assert Image(After(w, steps[..1]), g);
    assert Needed(g) == Needed(w.dur);
    assert !PrefixSurvives(w, steps[..1]);
  }

  lemma OnlyPrune(f: Files, j: Journal)
    requires f.journal == Some(j) && Terminal(j.phase) && j.retired
    ensures Script(f, Deferred({}), Deferred({})) == Finish(f, j, Deferred({}), Deferred({})) == Prune(f)
  {
    hide Prune, Own, Orphans;
  }

  /** A disk that takes back what the completed reconcile reported. */
  lemma LostRegisterFails(w: World, j: Journal)
    requires Inv(w) && w.vis.journal == Some(j) && Terminal(j.phase) && j.retired
    requires CleanupHarmless(w) && Abstract(w.dur) != Abstract(w.vis)
    ensures !EveryCrashSurvives(w)
  {
    hide Good, InStep, CleanupHarmless, Outcome, Script, After, Legal, PrefixSurvives, Inv;
    var c := Deferred({});
    FinishIsLegal(w, j, c, c);
    OnlyPrune(w.vis, j);
    PruneKeepsJournal(w);
    OldRegisterReturns(After(w, Prune(w.vis)), Abstract(w.vis));
    assert !CompletionSurvives(w, Script(w.vis, c, c));
  }

  lemma OldRegisterReturns(x: World, r: Register)
    requires Inv(x) && Abstract(x.dur) != r
    ensures Image(x, x.dur) && !RecoversTo(x.dur, r)
  {
    hide Outcome, Good;
    InvHasAllowlist(x);
    OutcomeSelectsRegister(x.dur);
  }

  lemma PruneKeepsJournal(w: World)
    ensures var x := After(w, Prune(w.vis));
            x.dur.journal == w.dur.journal && x.dur.current == w.dur.current && x.dur.previous == w.dur.previous
            && Abstract(x.dur) == Abstract(w.dur)
  {
    var ds := w.vis.releases - Retained(w.vis);
    AfterOne(w, DropReleases(ds));
    AfterOneMore(w, [DropReleases(ds)], SyncReleases);
    assert [DropReleases(ds)] + [SyncReleases] == [DropReleases(ds), SyncReleases];
  }

  lemma LostRetirementFails(w: World, j: Journal)
    requires Inv(w) && w.vis.journal == Some(j) && j.retired && w.dur.journal != Some(j)
    requires !(CleanupHarmless(w) && Abstract(w.dur) == Abstract(w.vis))
    ensures !EveryCrashSurvives(w)
  {
    hide Good, InStep, MayForget, MayPrune, PrefixSurvives, CompletionSurvives, Script;
    InvHasAllowlist(w);
    RetiredIsTerminal(w.vis, j);
    if id :| id in w.vis.backups && !MayForget(w.dur, id) {
      var c1, ids := ForgetFirst(w.vis, j, id);
      LostBackupFails(w, ids, id, Script(w.vis, c1, Cleaned)[..1]);
    } else if d :| d in w.vis.releases - Retained(w.vis) && !MayPrune(w.dur, d) {
      LostReleaseFails(w, j, d);
    } else {
      LostRegisterFails(w, j);
    }
  }

  lemma RetiredIsTerminal(f: Files, j: Journal)
    requires Good(f) && f.journal == Some(j) && j.retired
    ensures Terminal(j.phase)
  {
  }

  /** Steps that leave the durable selectors alone. */
  predicate NoInstallSync(steps: seq<Step>) {
    forall i :: 0 <= i < |steps| ==> !steps[i].SyncInstall? && !steps[i].Flush? && !steps[i].Crash?
  }

  lemma {:induction false} DurableCurrentStays(w: World, steps: seq<Step>)
    requires NoInstallSync(steps) && w.vis.allowlist == w.dur.allowlist
    ensures After(w, steps).dur.current == w.dur.current
    ensures After(w, steps).vis.allowlist == After(w, steps).dur.allowlist
  {
    if steps != [] {
      DurableCurrentStays(w, Front(steps));
    }
  }

  lemma {:induction false} RestoresLeaveSelectors(records: seq<HostRecord>)
    ensures NoInstallSync(Restores(records))
  {
    if records != [] {
      RestoresLeaveSelectors(records[..|records| - 1]);
    }
  }

  /** A stranded rollback never touches the install root. */
  lemma StrandedRewind(w: World, j: Journal)
    requires Inv(w) && w.vis.journal == Some(j) && RollbackEntry(j) && Stranded(w, j)
    ensures NoInstallSync(Rewind(w.vis, j))
  {
    hide Restores, EffectivePlan, ManagedDaemonPlan, HostRestorePlanned, NativeRestorePlanned, Inv, Good;
    RestoresLeaveSelectors(j.hostArtifacts);
    StrandedPrevious(w, j);
    assert NoInstallSync(Quiesce(j));
    assert NoInstallSync(Unselect(w.vis, j));
    assert NoInstallSync(RestoreBoundary(j));
    assert NoInstallSync(RestoreHosts(j));
  }

  lemma StrandedPrevious(w: World, j: Journal)
    requires Inv(w) && w.vis.journal == Some(j) && RollbackEntry(j) && Stranded(w, j)
    ensures w.vis.previous.None?
  {
    InvHasAllowlist(w);
    assert PhaseAdmits(j, w.vis.current, w.vis.previous);
  }

  /** The removed `current` comes back under the record that says it is gone. */
  lemma StrandedFails(w: World, j: Journal)
    requires Inv(w) && w.vis.journal == Some(j) && RollbackEntry(j) && Stranded(w, j)
    ensures !EveryCrashSurvives(w)
  {
    hide Good, InStep, Rewind, Finish, BaselineStarts, Undone, Outcome, Accepts, Needed;
    var steps := Script(w.vis, Cleaned, Cleaned);
    var n := if j.activeBefore != [] then StartingRecord(j) else RollbackRecord(j);
    var first := Rewind(w.vis, j) + Log(n);
    assert steps[..|first|] == first;
    StrandedRewind(w, j);
    DurableCurrentStays(w, first);
    LoggedIsSynced(w, Rewind(w.vis, j), n);
    var x := After(w, first);
    var g := x.vis.(current := x.dur.current);
    assert Image(x, g);
    assert !ChecksPass(g);
    assert !PrefixSurvives(w, steps[..|first|]);
  }

  // ---- exact ----

  /** The whole reconcile: every crash during it and after it recovers to the register exactly when the world it
      starts from is resumable. */
  lemma ResumableIsExact(w: World)
    requires Inv(w)
    ensures EveryCrashSurvives(w) <==> Resumable(w)
  {
    hide Inv, PrefixSurvives, CompletionSurvives, Script, CleanupHarmless, Stranded;
    if Resumable(w) {
      forall c1, c2
        ensures forall k :: 0 <= k <= |Script(w.vis, c1, c2)| ==> PrefixSurvives(w, Script(w.vis, c1, c2)[..k])
        ensures CompletionSurvives(w, Script(w.vis, c1, c2))
      {
        forall k | 0 <= k <= |Script(w.vis, c1, c2)| ensures PrefixSurvives(w, Script(w.vis, c1, c2)[..k]) {
          ResumedPrefixSurvives(w, c1, c2, k);
        }
        ResumedCompletionSurvives(w, c1, c2);
      }
    } else {
      var j := w.vis.journal.value;
      if j.phase.Finalizing? && j.enable != [] && w.dur.journal != Some(j) {
        LostIntentFails(w, j);
      } else if j.retired && w.dur.journal != Some(j) && !(CleanupHarmless(w) && Abstract(w.dur) == Abstract(w.vis)) {
        LostRetirementFails(w, j);
      } else {
        StrandedFails(w, j);
      }
    }
  }

  // ---- what an enabled unit needs ----

  /** A unit is enabled for a commit that every crash keeps exactly when the durable journal carries the intent. */
  lemma EnablingNeedsDurableIntent(w: World, j: Journal, u: Unit)
    requires Inv(w) && w.vis.journal == Some(j) && j.phase.Finalizing? && u in j.enable
    ensures (forall g :: Image(Do(w, EnableUnit(u)), g) ==>
               Register(Outcome(g).current, Outcome(g).previous) == Register(Some(j.candidate), j.currentBefore))
            <==> w.dur.journal.Some? && CommitIntent(w.dur.journal.value)
  {
    hide Good, Outcome, Inv, InStep;
    InvHasAllowlist(w);
    assert forall g :: Image(Do(w, EnableUnit(u)), g) <==> Image(w, g);
    hide Image;
    OutcomeSelectsRegister(w.dur);
    DigestsDiffer(w.vis, j);
    FollowedIntent(w, j);
    forall g | Image(w, g) ensures Register(Outcome(g).current, Outcome(g).previous) == Abstract(g) {
      EveryImageGood(w, g);
      OutcomeSelectsRegister(g);
    }
    DurableIsImage(w);
  }

  lemma DurableIsImage(w: World)
    requires w.vis.allowlist == w.dur.allowlist
    ensures Image(w, w.dur)
  {
  }

  /** The visible intent publishes; the durable journal, if it is not an intent, keeps the baseline. */
  lemma FollowedIntent(w: World, j: Journal)
    requires Inv(w) && w.vis.journal == Some(j) && j.phase.Finalizing?
    ensures w.dur.journal.Some?
    ensures forall g :: Image(w, g) ==>
              (g.journal.Some? && CommitIntent(g.journal.value) && Abstract(g) == Register(Some(j.candidate), j.currentBefore))
              || (g.journal == w.dur.journal && !CommitIntent(w.dur.journal.value)
                  && Abstract(g) == Register(j.currentBefore, w.dur.journal.value.previousBefore))
  {
    hide Inv;
    InvHasAllowlist(w);
  }

  lemma DigestsDiffer(f: Files, j: Journal)
    requires Good(f) && f.journal == Some(j)
    ensures Some(j.candidate) != j.currentBefore
  {
  }

  /** Otherwise a power loss rolls the deployment back and leaves the unit enabled. */
  lemma LostIntentIsRolledBack(w: World, j: Journal, u: Unit) returns (after: World)
    requires Inv(w) && w.dur.journal == Some(j) && j.phase.Activated?
    requires w.vis.journal == Some(j.(phase := Finalizing, daemonStarted := false)) && u in j.enable
    ensures after == Do(Do(w, EnableUnit(u)), Crash(w.dur)) && Image(Do(w, EnableUnit(u)), w.dur)
    ensures u in after.enabled && Abstract(after.vis) != Abstract(w.vis)
    ensures Register(Outcome(after.vis).current, Outcome(after.vis).previous) == Register(j.currentBefore, j.previousBefore)
  {
    hide Good, Outcome;
    InvHasAllowlist(w);
    after := Do(Do(w, EnableUnit(u)), Crash(w.dur));
    DigestsDiffer(w.dur, j);
    OutcomeSelectsRegister(w.dur);
  }

  /** Removing a backup under a retired journal that may still be lost is safe exactly when the journal on disk
      does not need the backup. */
  lemma CleanupUnderLostRetirement(w: World, j: Journal, id: BackupId)
    requires Inv(w) && w.vis.journal == Some(Retire(j)) && w.dur.journal == Some(j) && Terminal(j.phase)
    requires id in w.dur.backups
    ensures Inv(Do(w, DropBackups({id}))) <==> !References(j, id)
  {
    if References(j, id) {
      var after := Do(w, DropBackups({id}));
      var f := w.dur.(backups := w.dur.backups - {id});
      assert Image(after, f);
      MissingBackupIsRejected(f.allowlist, f.backups, j, id);
    } else {
      MayForgetEverywhere(w, {id});
      StepKeepsInv(w, DropBackups({id}));
    }
  }
}
