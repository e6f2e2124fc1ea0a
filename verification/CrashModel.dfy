/** The disk as a running process sees it and as a crash can leave it.  A write changes only what
    is visible; an fsync makes one directory durable; a crash keeps, for every entry on its own,
    either the visible or the durable value. */
module CrashModel {
  import opened ReleaseTypes
  import opened JournalRules
  import opened Protocol

  datatype World = World(
    vis: Files,
    dur: Files,
    active: set<Unit>,
    enabled: set<Unit>,
    ready: set<Unit>
  )

  /** `f` is a disk a crash in `w` may leave behind.  Content that was not yet fsynced may be torn. */
  ghost predicate Image(w: World, f: Files) {
    && f.allowlist == w.vis.allowlist
    && (f.journal == w.vis.journal || f.journal == w.dur.journal)
    && (f.current == w.vis.current || f.current == w.dur.current)
    && (f.previous == w.vis.previous || f.previous == w.dur.previous)
    && w.vis.releases * w.dur.releases <= f.releases <= w.vis.releases + w.dur.releases
    && (forall id :: id in w.vis.backups && id in w.dur.backups && w.vis.backups[id] == w.dur.backups[id] ==>
          id in f.backups && f.backups[id] == w.dur.backups[id])
    && (forall id :: id in f.backups ==> id in w.vis.backups || id in w.dur.backups)
    && (forall p :: At(f.host, p) == At(w.vis.host, p) || At(f.host, p) == At(w.dur.host, p))
  }

  /** The journal carries no write that is still to be fsynced. */
  predicate JournalSynced(w: World) {
    w.vis.allowlist == w.dur.allowlist && w.vis.journal == w.dur.journal
  }

  predicate SelectorsSynced(w: World) {
    w.vis.allowlist == w.dur.allowlist && w.vis.current == w.dur.current && w.vis.previous == w.dur.previous
  }

  predicate Settled(w: World) {
    JournalSynced(w) && SelectorsSynced(w)
  }

  /** Phases whose selector pair is fixed: nothing in them waits for an fsync. */
  predicate Fixed(p: Phase) {
    && !p.SwitchingCurrent? && !p.SwitchingPrevious? && !p.StoppingConsumers? && !p.ConsumersStopped?
    && !p.RollingBackCurrent? && !p.RollingBackPrevious?
  }

  /** Records that hand the deployment on; they are written only over a durable predecessor. */
  predicate HandsOver(n: Journal) {
    n.phase.Activated? || n.phase.StartingBaseline? || (n.phase.Prepared? && !n.armed)
  }

  /** What the durable journal still is when such a record, or the commit intent after it, was not fsynced. */
  predicate Follows(n: Journal, d: Option<Journal>) {
    && (n.phase.Activated? ==>
          d.Some? && d.value.phase.SwitchingPrevious? && n == d.value.(phase := Activated))
    && (n.phase.Finalizing? ==>
          d.Some? && (d.value.phase.SwitchingPrevious? || d.value.phase.Activated?)
          && n == d.value.(phase := Finalizing, daemonStarted := false))
    && (n.phase.StartingBaseline? ==>
          d.Some? && (d.value.phase.RollingBackPrevious? || d.value.phase.HostRestored?)
          && n == StartingRecord(d.value))
    && (n.phase.Prepared? && !n.armed ==> d.Some? && d.value.phase.Staging? && n == d.value.(phase := Prepared))
  }

  /** How far the durable journal and selectors can be behind the visible ones. */
  predicate InStep(w: World) {
    && (w.vis.journal.None? ==> w.dur.journal.None?)
    && (w.dur.journal.None? ==> SelectorsSynced(w))
    && (w.vis.journal.Some? && w.vis.journal != w.dur.journal ==> Follows(w.vis.journal.value, w.dur.journal))
  }

  /** Every disk a crash may leave is good. */
  ghost predicate AllGood(w: World) {
    && w.vis.allowlist == w.dur.allowlist
    && forall f :: Image(w, f) ==> Good(f)
  }

  ghost predicate Inv(w: World) {
    AllGood(w) && InStep(w)
  }

  // ---- restarts over writes that were never fsynced ----

  /** An interrupted removal of `current` that no later fsync of the rollback makes durable: already invisible,
      still on disk, wanted removed, and `previous` is to be removed as well. */
  predicate Stranded(w: World, j: Journal) {
    j.currentBefore.None? && j.previousBefore.None? && w.vis.current.None? && w.dur.current.Some?
  }

  /** Nothing the terminal cleanup removes is needed by the durable journal. */
  predicate CleanupHarmless(w: World) {
    && (forall id :: id in w.vis.backups ==> MayForget(w.dur, id))
    && (forall d :: d in w.vis.releases - Retained(w.vis) ==> MayPrune(w.dur, d))
  }

  datatype Step =
    // writes of the engine
    | PutJournal(journal: Journal)
    | PutSelector(slot: Slot, digest: Option<Digest>)
    | AddRelease(release: Digest)
    | DropReleases(releases: set<Digest>)
    | PutBackup(backup: BackupId, content: Bytes)
    | DropBackups(backups: set<BackupId>)
    | RestoreHost(record: HostRecord)
    // fsync of the journal's directory after its replacement, of the install root, the release store, a snapshot,
    // the directory that holds journal and snapshots, and a host directory
    | SyncState | SyncInstall | SyncReleases | SyncSnapshot | SyncStateRoot | SyncHost(path: HostPath)
    // operations of the engine outside its files: systemd, and the snapshotted helper that restores the boundary
    | StopUnits(units: seq<Unit>, force: bool)
    | StartUnit(unit: Unit)
    | EnableUnit(unit: Unit)
    | RestoreNative(native: NativeRecord)
    // the environment
    | HostDrift(path: HostPath, artifact: Artifact, durable: bool)
    | Flush
    | UnitDrift(active: set<Unit>, enabled: set<Unit>, ready: set<Unit>)
    | Crash(image: Files)

  /** The visible and the durable host may differ at one path only while it is being written. */
  function SyncPath(vis: Host, dur: Host, p: HostPath): Host {
    Replace(dur, p, At(vis, p))
  }

  function UnitSet(units: seq<Unit>): set<Unit> {
    set u | u in units
  }

  /** The effect of a step. */
  function Do(w: World, s: Step): World {
    match s
    case PutJournal(j) => w.(vis := w.vis.(journal := Some(j)))
    case PutSelector(slot, d) => w.(vis := Select(w.vis, slot, d))
    case AddRelease(d) => w.(vis := w.vis.(releases := w.vis.releases + {d}))
    case DropReleases(ds) => w.(vis := w.vis.(releases := w.vis.releases - ds))
    case PutBackup(id, b) => w.(vis := w.vis.(backups := w.vis.backups[id := b]))
    case DropBackups(ids) => w.(vis := w.vis.(backups := w.vis.backups - ids))
    case RestoreHost(r) => w.(vis := w.vis.(host := Replace(w.vis.host, r.path, Recorded(r))))
    case SyncState => w.(dur := w.dur.(journal := w.vis.journal))
    case SyncInstall => w.(dur := w.dur.(current := w.vis.current, previous := w.vis.previous))
    case SyncReleases => w.(dur := w.dur.(releases := w.vis.releases))
    case SyncSnapshot => w.(dur := w.dur.(backups := w.vis.backups))
    case SyncStateRoot => w.(dur := w.dur.(journal := w.vis.journal, backups := w.vis.backups))
    case SyncHost(p) => w.(dur := w.dur.(host := SyncPath(w.vis.host, w.dur.host, p)))
    case StopUnits(us, _) => w.(active := w.active - UnitSet(us), ready := w.ready - UnitSet(us))
    case StartUnit(_) | RestoreNative(_) => w
    case EnableUnit(u) => w.(enabled := w.enabled + {u})
    case HostDrift(p, a, durable) =>
      w.(vis := w.vis.(host := Replace(w.vis.host, p, a)),
         dur := if durable then w.dur.(host := Replace(w.dur.host, p, a)) else w.dur)
    case Flush => w.(dur := w.vis)
    case UnitDrift(a, e, r) => w.(active := a, enabled := e, ready := r)
    case Crash(f) => w.(vis := f, dur := f)
  }

  /** What systemd must have shown before the two journal writes that discharge consumer duties. */
  predicate UnitEvidence(w: World, n: Journal) {
    w.vis.journal.Some? ==>
      var j := w.vis.journal.value;
      && (n.phase.Committed? && j.phase.Finalizing? ==> forall u :: u in j.enable ==> u in w.enabled)
      && (n.phase.RolledBack? && j.phase.StartingBaseline? ==>
            forall u :: Fenced(j, u) ==> u in w.active && u in w.ready)
  }

  /** The outer installer mutates the host only under durable authority: an armed transaction that has not
      begun to roll back, with the daemon marker where the rollback plan owns the daemon.  Outside a live
      archive transaction the host belongs to its operator. */
  predicate InstallerMayChangeHost(f: Files) {
    f.journal.Some? ==>
      var j := f.journal.value;
      || !j.kind.Archive? || j.retired || j.phase.Committed? || j.phase.Finalizing?
      || (&& j.armed && (ManagedDaemonPlan(j) ==> j.daemonStarted)
          && (j.phase.Prepared? || j.phase.SwitchingCurrent? || j.phase.CurrentSwitched?
              || j.phase.SwitchingPrevious? || j.phase.Activated?))
  }

  /** The rules of the protocol.  A write is allowed when every crash image justifies it; a journal write
      follows the journal the process sees, which may itself still be lost. */
  ghost predicate Allowed(w: World, s: Step) {
    match s
    case PutJournal(n) =>
      && UnitEvidence(w, n)
      && (HandsOver(n) ==> JournalSynced(w))
      && forall f :: Image(w, f) && f.journal == w.vis.journal ==> Moves(f, n)
    case PutSelector(slot, d) => forall f :: Image(w, f) ==> MaySelect(f, slot, d)
    case AddRelease(_) => true
    case DropReleases(ds) => forall f :: Image(w, f) ==> ds !! Needed(f)
    case PutBackup(id, _) => id !in w.vis.backups
    case DropBackups(ids) => forall f, id :: Image(w, f) && id in ids ==> MayForget(f, id)
    case RestoreHost(r) =>
      forall f :: Image(w, f) ==>
        f.journal.Some? && f.journal.value.phase.RestoringHost? && r in f.journal.value.hostArtifacts
    case SyncState | SyncInstall | SyncReleases | SyncSnapshot | SyncStateRoot | SyncHost(_) => true
    case StopUnits(us, force) =>
      forall f :: Image(w, f) ==>
        && f.journal.Some? && f.journal.value.phase.StoppingConsumers?
        && us == EffectivePlan(f.journal.value)
        && force == (ManagedDaemonPlan(f.journal.value) && f.journal.value.daemonStarted)
    case StartUnit(u) =>
      || (w.vis.journal.Some? && w.vis.journal.value.phase.StartingBaseline? && Fenced(w.vis.journal.value, u))
      || (forall f :: Image(w, f) ==>
            f.journal.Some? && f.journal.value.phase.Finalizing? && u in f.journal.value.start)
    case EnableUnit(u) =>
      forall f :: Image(w, f) ==>
        f.journal.Some? && f.journal.value.phase.Finalizing? && u in f.journal.value.enable
    case RestoreNative(r) =>
      forall f :: Image(w, f) ==>
        f.journal.Some? && f.journal.value.phase.RestoringNative? && f.journal.value.native == Some(r)
    case HostDrift(_, _, _) => forall f :: Image(w, f) ==> InstallerMayChangeHost(f)
    case UnitDrift(_, _, _) | Flush => true
    case Crash(f) => Image(w, f)
  }

  // ---- where a crash image comes from ----

  lemma PriorOfJournalWrite(w: World, n: Journal, g: Files) returns (f: Files)
    requires w.vis.allowlist == w.dur.allowlist && Image(Do(w, PutJournal(n)), g)
    ensures Image(w, f)
    ensures g == f || (f.journal == w.vis.journal && g == f.(journal := Some(n)))
  {
    f := if g.journal == w.dur.journal then g else g.(journal := w.vis.journal);
  }

  lemma PriorOfSelectorWrite(w: World, slot: Slot, d: Option<Digest>, g: Files) returns (f: Files)
    requires w.vis.allowlist == w.dur.allowlist && Image(Do(w, PutSelector(slot, d)), g)
    ensures Image(w, f)
    ensures g == f || g == Select(f, slot, d)
  {
    f := Select(g, slot, if slot.Current? then w.dur.current else w.dur.previous);
  }

  lemma PriorOfOtherStep(w: World, s: Step, g: Files) returns (f: Files)
    requires w.vis.allowlist == w.dur.allowlist && Image(Do(w, s), g)
    requires !s.PutJournal? && !s.PutSelector? && !s.Crash?
    ensures Image(w, f)
    ensures g.journal == f.journal && g.current == f.current && g.previous == f.previous
  {
    f := w.vis.(journal := g.journal, current := g.current, previous := g.previous);
    OtherStepsKeepLinks(w, s);
    hide Do;
  }

  lemma OtherStepsKeepLinks(w: World, s: Step)
    requires !s.PutJournal? && !s.PutSelector? && !s.Crash?
    ensures var x := Do(w, s);
            && x.vis.journal == w.vis.journal && x.vis.current == w.vis.current && x.vis.previous == w.vis.previous
            && x.dur.journal in {w.vis.journal, w.dur.journal}
            && x.dur.current in {w.vis.current, w.dur.current} && x.dur.previous in {w.vis.previous, w.dur.previous}
            && x.vis.allowlist == w.vis.allowlist
  {
  }

  /** A crash image after a step is a crash image before it, up to what the step wrote. */
  lemma PriorImage(w: World, s: Step, g: Files) returns (f: Files)
    requires w.vis.allowlist == w.dur.allowlist && Allowed(w, s) && Image(Do(w, s), g)
    ensures Image(w, f)
    ensures s.PutJournal? ==> g == f || (f.journal == w.vis.journal && g == f.(journal := Some(s.journal)))
    ensures s.PutSelector? ==> g == f || g == Select(f, s.slot, s.digest)
    ensures !s.PutJournal? ==> g.journal == f.journal
    ensures !s.PutSelector? ==> g.current == f.current && g.previous == f.previous
  {
    if s.PutJournal? {
      f := PriorOfJournalWrite(w, s.journal, g);
    } else if s.PutSelector? {
      f := PriorOfSelectorWrite(w, s.slot, s.digest, g);
    } else if s.Crash? {
      f := s.image;
    } else {
      f := PriorOfOtherStep(w, s, g);
    }
  }

  /** An fsync can only rule crash images out; operations outside the files touch none. */
  lemma OtherStepsShrinkImages(w: World, s: Step)
    requires w.vis.allowlist == w.dur.allowlist
    requires s.SyncState? || s.SyncInstall? || s.SyncReleases? || s.SyncSnapshot? || s.SyncStateRoot? || s.SyncHost? || s.Flush?
             || s.StopUnits? || s.StartUnit? || s.EnableUnit? || s.RestoreNative? || s.UnitDrift?
    ensures forall f :: Image(Do(w, s), f) ==> Image(w, f)
  {
    forall f | Image(Do(w, s), f) ensures Image(w, f) {
      assert forall p :: At(f.host, p) == At(Do(w, s).vis.host, p) || At(f.host, p) == At(Do(w, s).dur.host, p);
    }
  }

  // ---- every step keeps every crash image good ----

  lemma VisibleIsImage(w: World)
    requires w.vis.allowlist == w.dur.allowlist
    ensures Image(w, w.vis) && Image(w, w.dur)
  {
  }

  lemma JournalWriteKeepsGood(w: World, n: Journal)
    requires AllGood(w) && Allowed(w, PutJournal(n))
    ensures AllGood(Do(w, PutJournal(n)))
  {
    forall g | Image(Do(w, PutJournal(n)), g) ensures Good(g) {
      var f := PriorOfJournalWrite(w, n, g);
      if g != f {
        MoveKeepsGood(f, n);
      }
    }
  }

  lemma SelectorWriteKeepsGood(w: World, slot: Slot, d: Option<Digest>)
    requires AllGood(w) && Allowed(w, PutSelector(slot, d))
    ensures AllGood(Do(w, PutSelector(slot, d)))
  {
    forall g | Image(Do(w, PutSelector(slot, d)), g) ensures Good(g) {
      var f := PriorOfSelectorWrite(w, slot, d, g);
      SelectKeepsGood(f, slot, d);
    }
  }

  lemma ReleaseWriteKeepsGood(w: World, s: Step)
    requires AllGood(w) && Allowed(w, s)
    requires s.AddRelease? || s.DropReleases?
    ensures AllGood(Do(w, s))
  {
    var w' := Do(w, s);
    forall f | Image(w', f) ensures Good(f) {
      var added := if s.AddRelease? then {s.release} else {};
      var before := f.(releases := (f.releases - (added - w.vis.releases - w.dur.releases))
                                   + w.vis.releases * w.dur.releases);
      assert Image(w, before);
      assert Needed(before) == Needed(f);
      NeededIsStored(before);
      assert forall d :: d in before.releases && d in Needed(before) ==> d in f.releases;
      GoodIgnoresGarbage(before, f);
    }
  }

  lemma BackupWriteKeepsGood(w: World, id: BackupId, b: Bytes)
    requires AllGood(w) && Allowed(w, PutBackup(id, b))
    ensures AllGood(Do(w, PutBackup(id, b)))
  {
    var w' := Do(w, PutBackup(id, b));
    forall f | Image(w', f) ensures Good(f) {
      var before := if id in w.dur.backups then f else f.(backups := f.backups - {id});
      assert Image(w, before);
      GoodIgnoresGarbage(before, f);
    }
  }

  lemma BackupDropKeepsGood(w: World, ids: set<BackupId>)
    requires AllGood(w) && Allowed(w, DropBackups(ids))
    ensures AllGood(Do(w, DropBackups(ids)))
  {
    var w' := Do(w, DropBackups(ids));
    forall f | Image(w', f) ensures Good(f) {
      var back := map id | id in ids && id in w.dur.backups :: w.dur.backups[id];
      var before := f.(backups := f.backups + back);
      assert Image(w, before);
      GoodIgnoresGarbage(before, f);
    }
  }

  lemma HostWriteKeepsGood(w: World, s: Step)
    requires AllGood(w) && (s.RestoreHost? || s.HostDrift?)
    requires forall f :: Image(w, f) ==> MayChangeHost(f)
    ensures AllGood(Do(w, s))
  {
    forall g | Image(Do(w, s), g) ensures Good(g) {
      var f := g.(host := w.dur.host);
      assert Image(w, f);
      HostChangeKeepsGood(f, g.host);
      assert g == f.(host := g.host);
    }
  }

  /** Every permitted step, a crash included, leaves every possible crash image good. */
  lemma StepKeepsInv(w: World, s: Step)
    requires Inv(w) && Allowed(w, s)
    ensures Inv(Do(w, s))
  {
    hide Image, Good, InStep;
    StepStaysInStep(w, s);
    if s.PutJournal? {
      JournalWriteKeepsGood(w, s.journal);
    } else if s.PutSelector? {
      SelectorWriteKeepsGood(w, s.slot, s.digest);
    } else if s.AddRelease? || s.DropReleases? {
      ReleaseWriteKeepsGood(w, s);
    } else if s.PutBackup? {
      BackupWriteKeepsGood(w, s.backup, s.content);
    } else if s.DropBackups? {
      BackupDropKeepsGood(w, s.backups);
    } else if s.RestoreHost? || s.HostDrift? {
      MayChangeEverywhere(w, s);
      HostWriteKeepsGood(w, s);
    } else if s.Crash? {
      CrashKeepsGood(w, s.image);
    } else {
      OtherStepsShrinkImages(w, s);
    }
  }

  lemma MayChangeEverywhere(w: World, s: Step)
    requires AllGood(w) && Allowed(w, s) && (s.RestoreHost? || s.HostDrift?)
    ensures forall f :: Image(w, f) ==> MayChangeHost(f)
  {
    forall f | Image(w, f) ensures MayChangeHost(f) {
      assert Good(f);
    }
  }

  /** No step lets the durable journal or selectors fall further behind. */
  lemma StepStaysInStep(w: World, s: Step)
    requires Inv(w) && Allowed(w, s)
    ensures InStep(Do(w, s))
  {
    if s.PutJournal? {
      assert Image(w, w.vis);
      JournalStaysInStep(w, s.journal);
    } else if s.PutSelector? {
      assert Image(w, w.vis) && Image(w, w.dur);
    }
  }

  lemma JournalStaysInStep(w: World, n: Journal)
    requires Good(w.vis) && InStep(w) && Moves(w.vis, n) && (HandsOver(n) ==> JournalSynced(w))
    ensures InStep(Do(w, PutJournal(n)))
  {
    if HandsOver(n) || n.phase.Finalizing? {
      OnlyAdvancesHandOver(w.vis, n);
    }
  }

  lemma OnlyAdvancesHandOver(f: Files, n: Journal)
    requires Good(f) && Moves(f, n) && (HandsOver(n) || n.phase.Finalizing?)
    ensures f.journal.Some?
    ensures var j := f.journal.value;
            && (n.phase.Activated? ==> j.phase.SwitchingPrevious? && n == j.(phase := Activated))
            && (n.phase.Finalizing? ==> j.phase.Activated? && n == j.(phase := Finalizing, daemonStarted := false))
            && (n.phase.StartingBaseline? ==>
                  (j.phase.RollingBackPrevious? || j.phase.HostRestored?) && n == StartingRecord(j))
            && (n.phase.Prepared? && !n.armed ==> j.phase.Staging? && n == j.(phase := Prepared))
  {
    hide Accepts, HostMatches, ReleasesKept, SelectorsFit;
  }

  lemma CrashKeepsGood(w: World, image: Files)
    requires AllGood(w) && Image(w, image)
    ensures AllGood(Do(w, Crash(image)))
  {
    var w' := Do(w, Crash(image));
    forall f | Image(w', f) ensures Good(f) {
      GoodIgnoresGarbage(image, f);
    }
  }

  // ---- the visible files alone ----

  /** The world in which nothing waits for an fsync. */
  function Synced(w: World): World {
    w.(dur := w.vis)
  }

  /** If every crash image is good, the visible files are good as they are. */
  lemma SyncedIsInv(w: World)
    requires Inv(w)
    ensures Inv(Synced(w)) && forall f :: Image(Synced(w), f) ==> Image(w, f)
  {
    hide Good;
    forall f | Image(Synced(w), f) ensures Image(w, f) {
      assert f.backups == w.vis.backups;
    }
  }

  /** What every crash image justifies the visible files justify. */
  lemma SyncedAllows(w: World, s: Step)
    requires Inv(w) && Allowed(w, s) && !s.Crash?
    ensures Allowed(Synced(w), s)
  {
    hide Image, Good, Moves, MaySelect, Needed, MayForget;
    SyncedIsInv(w);
  }

  // ---- what the engine may conclude from the disk it sees ----

  /** A journal write justified over the visible and over the durable files is justified over every image. */
  lemma MoveEverywhere(w: World, n: Journal)
    requires w.vis.allowlist == w.dur.allowlist
    requires Moves(w.vis, n) && Moves(w.dur.(journal := w.vis.journal), n) && UnitEvidence(w, n)
    requires HandsOver(n) ==> JournalSynced(w)
    ensures Allowed(w, PutJournal(n))
  {
    forall f | Image(w, f) && f.journal == w.vis.journal ensures Moves(f, n) {
      if n.phase.Staging? {
        OpensInImage(w, n, f);
      } else {
        AdvancesInImage(w, w.vis.journal.value, n, f);
      }
    }
  }

  lemma AdvanceEverywhere(w: World, j: Journal, n: Journal)
    requires w.vis.allowlist == w.dur.allowlist && w.vis.journal == Some(j)
    requires Advances(w.vis, j, n) && Advances(w.dur, j, n) && UnitEvidence(w, n)
    requires HandsOver(n) ==> JournalSynced(w)
    ensures Allowed(w, PutJournal(n)) && Moves(w.vis, n)
  {
    assert Advances(w.dur.(journal := Some(j)), j, n);
    MoveEverywhere(w, n);
  }

  lemma OpensInImage(w: World, n: Journal, f: Files)
    requires w.vis.allowlist == w.dur.allowlist && Opens(w.vis, n) && Opens(w.dur, n) && Image(w, f)
    ensures Opens(f, n)
  {
  }

  lemma AdvancesInImage(w: World, j: Journal, n: Journal, f: Files)
    requires Advances(w.vis, j, n) && Advances(w.dur, j, n) && Image(w, f)
    ensures Advances(f, j, n)
  {
  }

  /** In a phase with a fixed selector pair both the visible and the durable selectors are that pair. */
  lemma FixedIsSynced(w: World, j: Journal)
    requires Inv(w) && w.vis.journal == Some(j) && Fixed(j.phase)
    ensures SelectorsSynced(w)
  {
    var f := w.vis.(current := w.dur.current, previous := w.dur.previous);
    assert Image(w, w.vis) && Image(w, f) by {
      hide Good, InStep;
    }
    hide Image, InStep, Good;
    FixedPair(w.vis, f, j);
  }

  lemma FixedPair(f: Files, g: Files, j: Journal)
    requires Good(f) && Good(g) && f.journal == g.journal == Some(j) && Fixed(j.phase)
    ensures f.current == g.current && f.previous == g.previous
  {
  }

  lemma MayForgetEverywhere(w: World, ids: set<BackupId>)
    requires forall id :: id in ids ==> MayForget(w.vis, id) && MayForget(w.dur, id)
    ensures Allowed(w, DropBackups(ids))
  {
  }

  lemma MayPruneEverywhere(w: World, ds: set<Digest>)
    requires SelectorsSynced(w) && ds !! Needed(w.vis) && ds !! Needed(w.dur)
    ensures Allowed(w, DropReleases(ds))
  {
    forall f | Image(w, f) ensures ds !! Needed(f) {
      assert Needed(f) == Needed(w.vis) || Needed(f) == Needed(w.dur);
    }
  }

  lemma MaySelectEverywhere(w: World, slot: Slot, d: Option<Digest>)
    requires JournalSynced(w) && MaySelect(w.vis, slot, d)
    ensures Allowed(w, PutSelector(slot, d))
  {
  }

  /** What a durable record entitles the engine to do. */
  lemma MayAct(w: World, j: Journal)
    requires JournalSynced(w) && w.vis.journal == Some(j)
    ensures j.phase.RestoringHost? ==> forall r :: r in j.hostArtifacts ==> Allowed(w, RestoreHost(r))
    ensures j.phase.StoppingConsumers? ==>
              Allowed(w, StopUnits(EffectivePlan(j), ManagedDaemonPlan(j) && j.daemonStarted))
    ensures j.phase.RestoringNative? && j.native.Some? ==> Allowed(w, RestoreNative(j.native.value))
    ensures j.phase.Finalizing? ==> forall u :: u in j.enable ==> Allowed(w, EnableUnit(u))
    ensures j.phase.Finalizing? ==> forall u :: u in j.start ==> Allowed(w, StartUnit(u))
  {
    hide Image, EffectivePlan, ManagedDaemonPlan;
    SyncedJournal(w);
  }

  lemma SyncedJournal(w: World)
    requires JournalSynced(w)
    ensures forall f :: Image(w, f) ==> f.journal == w.vis.journal
  {
  }

  /** With synced selectors the end of a rollback is justified on the durable files as on the visible ones. */
  lemma ConclusionOnSettled(w: World, j: Journal, n: Journal)
    requires SelectorsSynced(w) && Concludes(w.vis, j, n)
    ensures Concludes(w.dur, j, n)
  {
  }

  /** So is the way forward, once the candidate is durable. */
  lemma ForwardOnSettled(w: World, j: Journal, n: Journal)
    requires SelectorsSynced(w) && AdvancesForward(w.vis, j, n) && !Arms(w.vis, j, n)
    requires n.phase.Prepared? ==> j.candidate in w.dur.releases
    ensures AdvancesForward(w.dur, j, n)
  {
  }

  // ---- the transitions, as the engine takes them ----

  lemma UndoSteps(f: Files, j: Journal)
    ensures RollbackEntry(j) && EffectivePlan(j) != [] ==> Undoes(f, j, j.(phase := StoppingConsumers))
    ensures j.phase.StoppingConsumers? ==> Undoes(f, j, j.(phase := ConsumersStopped))
    ensures j.phase.ConsumersStopped? || (RollbackEntry(j) && EffectivePlan(j) == []) ==>
              Undoes(f, j, j.(phase := RollingBackCurrent))
    ensures j.phase.RollingBackCurrent? && (f.current == j.currentBefore || Returns(j)) ==>
              Undoes(f, j, j.(phase := RollingBackPrevious))
    ensures j.phase.RollingBackPrevious? && AtBaseline(j, f.current, f.previous) && NativeRestorePlanned(j) ==>
              Undoes(f, j, j.(phase := RestoringNative))
    ensures j.phase.RestoringNative? ==> Undoes(f, j, j.(phase := NativeRestored))
    ensures j.phase.NativeRestored?
            || (j.phase.RollingBackPrevious? && AtBaseline(j, f.current, f.previous)
                && HostRestorePlanned(j) && !NativeRestorePlanned(j)) ==>
              Undoes(f, j, j.(phase := RestoringHost))
    ensures j.phase.RestoringHost? && HostMatches(j.hostArtifacts, f.host) ==> Undoes(f, j, j.(phase := HostRestored))
  {
  }

  lemma ConclusionSteps(f: Files, j: Journal)
    ensures RestorationDone(f, j) && j.activeBefore != [] ==> Concludes(f, j, StartingRecord(j))
    ensures RestorationDone(f, j) && j.activeBefore == [] ==> Concludes(f, j, RollbackRecord(j))
    ensures !j.armed && (j.phase.Staging? || j.phase.Prepared?) ==> Concludes(f, j, UnarmedRollback(j))
    ensures j.phase.StartingBaseline? ==> Concludes(f, j, AcknowledgedRecord(j))
    ensures Terminal(j.phase) && !j.retired ==> Advances(f, j, Retire(j))
    ensures j.phase.Finalizing? ==> Advances(f, j, CommitRecord(j))
  {
  }

  lemma ForwardSteps(f: Files, j: Journal)
    ensures j.phase.Staging? && j.candidate in f.releases ==> AdvancesForward(f, j, j.(phase := Prepared))
    ensures j.phase.Prepared? && j.armed && ManagedDaemonPlan(j) ==> Advances(f, j, j.(daemonStarted := true))
    ensures j.phase.Prepared? && j.armed && (ManagedDaemonPlan(j) ==> j.daemonStarted) ==>
              AdvancesForward(f, j, j.(phase := SwitchingCurrent))
    ensures j.phase.SwitchingCurrent? && f.current == Some(j.candidate) ==>
              AdvancesForward(f, j, j.(phase := CurrentSwitched))
    ensures j.phase.CurrentSwitched? ==> AdvancesForward(f, j, j.(phase := SwitchingPrevious))
    ensures j.phase.SwitchingPrevious? && f.previous == j.currentBefore ==>
              AdvancesForward(f, j, j.(phase := Activated))
    ensures j.phase.Activated? ==> Advances(f, j, j.(phase := Finalizing, daemonStarted := false))
  {
  }

  lemma MayArm(f: Files, j: Journal, n: Journal)
    requires Arms(f, j, n)
    ensures Advances(f, j, n)
  {
  }

  /** A new transaction over a quiescent deployment whose snapshot, if it has one, is durable. */
  lemma MayOpen(w: World, n: Journal)
    requires SelectorsSynced(w) && (w.vis.journal.Some? ==> w.vis.journal.value.retired)
    requires w.vis.host == w.dur.host
    requires w.vis.backups == w.dur.backups || (n.hostArtifacts == [] && n.native == None)
    requires n.phase.Staging? && !n.armed && !n.daemonStarted && !n.retired && !n.restored
    requires n.currentBefore == w.vis.current && n.previousBefore == w.vis.previous
    requires n.kind.NMinusOne? ==> n.previousBefore == Some(n.candidate)
    requires Accepts(w.vis.allowlist, w.vis.backups, n) && HostMatches(n.hostArtifacts, w.vis.host)
    ensures Allowed(w, PutJournal(n))
  {
    if w.vis.backups != w.dur.backups {
      assert forall id :: !References(n, id) by {
        assert n.baseline == [];
      }
      AcceptsReadsReferencesOnly(w.vis.allowlist, w.vis.backups, w.dur.backups, n);
    }
    MoveEverywhere(w, n);
  }

  lemma CompactForgetsAll(f: Files)
    requires f.journal.Some? ==> Compact(f.journal.value)
    ensures forall id :: MayForget(f, id)
  {
  }

  /** A journal references only backups of its own transaction. */
  lemma ForeignBackupsUnreferenced(f: Files, j: Journal)
    requires f.journal == Some(j) && Accepts(f.allowlist, f.backups, j)
    ensures forall id: BackupId :: id.tx != j.id ==> MayForget(f, id)
  {
  }

  /** Before arming no response backup is referenced. */
  lemma ResponsesUnreferenced(f: Files, j: Journal)
    requires f.journal == Some(j) && Accepts(f.allowlist, f.backups, j) && !j.armed
    ensures forall id: BackupId :: id.name.Response? ==> MayForget(f, id)
  {
  }
}
