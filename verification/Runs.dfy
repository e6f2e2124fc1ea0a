/** Properties of whole runs: any interleaving of engine writes, fsyncs, systemd operations, host and
    unit drift, and crashes. */
module Runs {
  import opened ReleaseTypes
  import opened JournalRules
  import opened Protocol
  import opened CrashModel
  import opened Recovery

  function Front(steps: seq<Step>): seq<Step>
    requires steps != []
  {
    steps[..|steps| - 1]
  }

  function Last(steps: seq<Step>): Step
    requires steps != []
  {
    steps[|steps| - 1]
  }

  /** The world a run ends in. */
  function After(w: World, steps: seq<Step>): World {
    if steps == [] then w else Do(After(w, Front(steps)), Last(steps))
  }

  /** Records that report an operation outside the files as done. */
  predicate Reports(n: Journal) {
    n.phase.ConsumersStopped? || n.phase.NativeRestored?
  }

  /** Such a record directly follows the operation it reports. */
  predicate Attested(before: seq<Step>, s: Step) {
    s.PutJournal? ==>
      && (s.journal.phase.ConsumersStopped? ==> before != [] && Last(before).StopUnits?)
      && (s.journal.phase.NativeRestored? ==> before != [] && Last(before).RestoreNative?)
  }

  /** Every step of the run was permitted where it was taken. */
  ghost predicate Legal(w: World, steps: seq<Step>) {
    steps != [] ==>
      Legal(w, Front(steps)) && Allowed(After(w, Front(steps)), Last(steps)) && Attested(Front(steps), Last(steps))
  }

  lemma AfterOneMore(w: World, steps: seq<Step>, s: Step)
    ensures After(w, steps + [s]) == Do(After(w, steps), s)
    ensures Legal(w, steps) && Allowed(After(w, steps), s) && Attested(steps, s) ==> Legal(w, steps + [s])
  {
  }

  /** Whatever happens, every disk a crash may leave is good: its journal is accepted and fits its
      selectors, every needed release and backup is there, and the host is exact where it must be. */
  lemma {:induction false} RunKeepsInv(w: World, steps: seq<Step>)
    requires Inv(w) && Legal(w, steps)
    ensures Inv(After(w, steps))
  {
    if steps != [] {
      RunKeepsInv(w, Front(steps));
      StepKeepsInv(After(w, Front(steps)), Last(steps));
    }
  }

  // ---- what every crash image has ----

  /** Wherever a run crashes, every backup the journal references is there with its digest, and every selector,
      every rollback target and, from `prepared` to the end, the candidate name complete releases. */
  lemma NeededBytesSurvive(w: World, steps: seq<Step>, g: Files)
    requires Inv(w) && Legal(w, steps) && Image(After(w, steps), g)
    ensures Stored(g.releases, g.current) && Stored(g.releases, g.previous)
    ensures g.journal.Some? ==>
              var j := g.journal.value;
              && (forall id :: References(j, id) ==> id in g.backups)
              && (forall r :: r in j.hostArtifacts && r.kind.FileRecord? ==> Backed(g.backups, r.kind.backup, r.kind.sha))
              && (j.native.Some? ==> Backed(g.backups, j.native.value.snapshot, j.native.value.sha)
                                     && Backed(g.backups, j.native.value.helper, j.native.value.helperSha))
              && (forall b :: b in j.baseline && b.response.Some? ==>
                    Backed(g.backups, b.response.value.0, b.response.value.1))
              && Stored(g.releases, j.currentBefore)
              && (!CommitIntent(j) ==> Stored(g.releases, j.previousBefore))
              && (!j.phase.Staging? && !j.phase.RolledBack? ==> j.candidate in g.releases)
  {
    RunKeepsInv(w, steps);
    SelectedIsStored(g);
    if g.journal.Some? {
      AcceptedIsBacked(g, g.journal.value);
    }
  }

  lemma SelectedIsStored(f: Files)
    requires Good(f)
    ensures Stored(f.releases, f.current) && Stored(f.releases, f.previous)
  {
  }

  lemma AcceptedIsBacked(f: Files, j: Journal)
    requires Accepts(f.allowlist, f.backups, j)
    ensures forall id :: References(j, id) ==> id in f.backups
    ensures forall r :: r in j.hostArtifacts && r.kind.FileRecord? ==> Backed(f.backups, r.kind.backup, r.kind.sha)
    ensures j.native.Some? ==> Backed(f.backups, j.native.value.snapshot, j.native.value.sha)
                               && Backed(f.backups, j.native.value.helper, j.native.value.helperSha)
    ensures forall b :: b in j.baseline && b.response.Some? ==> Backed(f.backups, b.response.value.0, b.response.value.1)
  {
  }

  /** The phases in which `current` and `previous` may name the same release. */
  predicate Window(p: Phase) {
    || p.SwitchingCurrent? || p.CurrentSwitched? || p.SwitchingPrevious?
    || p.StoppingConsumers? || p.ConsumersStopped? || p.RollingBackCurrent? || p.RollingBackPrevious?
  }

  /** Outside those windows the two selectors differ in every crash image. */
  lemma SlotsMeetOnlyInWindows(w: World, steps: seq<Step>, g: Files)
    requires Inv(w) && Legal(w, steps) && Image(After(w, steps), g)
    requires g.current.Some? && g.current == g.previous
    ensures g.journal.Some? && Window(g.journal.value.phase)
    ensures var j := g.journal.value;
            HalfBack(j, g.current, g.previous) || (HalfForward(j, g.current, g.previous) && j.previousBefore == Some(j.candidate))
  {
    hide Good, InStep;
    RunKeepsInv(w, steps);
    MeetingSlots(g);
  }

  lemma MeetingSlots(f: Files)
    requires Good(f) && f.current.Some? && f.current == f.previous
    ensures f.journal.Some? && Window(f.journal.value.phase)
    ensures var j := f.journal.value;
            HalfBack(j, f.current, f.previous) || (HalfForward(j, f.current, f.previous) && j.previousBefore == Some(j.candidate))
  {
    if f.journal.Some? {
      assert DigestsValid(f.journal.value) && PhaseAdmits(f.journal.value, f.current, f.previous);
    }
  }

  // ---- refinement of a two-slot register ----

  /** The deployment, abstractly: what is selected and what it can be rolled back to. */
  datatype Register = Register(selected: Option<Digest>, retained: Option<Digest>)

  predicate CommitIntent(j: Journal) {
    j.phase.Finalizing? || j.phase.Committed?
  }

  function Abstract(f: Files): Register {
    match f.journal
    case None => Register(f.current, f.previous)
    case Some(j) =>
      if CommitIntent(j) then Register(Some(j.candidate), j.currentBefore)
      else Register(j.currentBefore, j.previousBefore)
  }

  /** The one operation of the register. */
  function Publish(r: Register, d: Digest): Register {
    Register(Some(d), r.selected)
  }

  function PublishAll(r: Register, ds: seq<Digest>): Register {
    if ds == [] then r else Publish(PublishAll(r, ds[..|ds| - 1]), ds[|ds| - 1])
  }

  predicate Commits(s: Step) {
    s.PutJournal? && s.journal.phase.Finalizing?
  }

  /** The candidates whose commit intent a run wrote, in order. */
  function Intents(steps: seq<Step>): seq<Digest> {
    if steps == [] then []
    else Intents(Front(steps)) + (if Commits(Last(steps)) then [Last(steps).journal.candidate] else [])
  }

  predicate Subsequence(a: seq<Digest>, b: seq<Digest>) {
    if a == [] then true
    else if b == [] then false
    else if a[|a| - 1] == b[|b| - 1] && Subsequence(a[..|a| - 1], b[..|b| - 1]) then true
    else Subsequence(a, b[..|b| - 1])
  }

  lemma SubsequenceGrows(a: seq<Digest>, b: seq<Digest>, d: Digest)
    requires Subsequence(a, b)
    ensures Subsequence(a, b + [d]) && Subsequence(a + [d], b + [d])
  {
    assert (b + [d])[..|b|] == b && (a + [d])[..|a|] == a;
  }

  /** The intents written since the journal was last fsynced or the machine last crashed. */
  function Recent(steps: seq<Step>): seq<Digest> {
    if steps == [] then []
    else if SyncsJournal(Last(steps)) || Last(steps).Crash? then []
    else Recent(Front(steps)) + (if Commits(Last(steps)) then [Last(steps).journal.candidate] else [])
  }

  /** The intents that were fsynced before the next crash, in order. */
  function Durable(steps: seq<Step>): seq<Digest> {
    if steps == [] then []
    else Durable(Front(steps)) + (if SyncsJournal(Last(steps)) then Recent(Front(steps)) else [])
  }

  predicate SyncsJournal(s: Step) {
    s.SyncState? || s.SyncStateRoot? || s.Flush?
  }

  /** Between crashes the durable journal changes by these steps alone, and becomes the visible one. */
  lemma SyncsAreExact(w: World, s: Step)
    requires !s.Crash?
    ensures Do(w, s).dur.journal == if SyncsJournal(s) then w.vis.journal else w.dur.journal
    ensures SyncsJournal(s) ==> Do(w, s).vis == w.vis
  {
  }

  /** A journal write either leaves the register alone or publishes exactly one candidate. */
  lemma MoveRefines(f: Files, n: Journal)
    requires Good(f) && Moves(f, n)
    ensures Abstract(f.(journal := Some(n))) ==
            if n.phase.Finalizing? then Publish(Abstract(f), n.candidate) else Abstract(f)
  {
    if f.journal.Some? {
      var j := f.journal.value;
      if AdvancesForward(f, j, n) {
        ForwardRefines(f, j, n);
      } else if Undoes(f, j, n) {
        UndoMarkers(f, j, n);
      } else if Concludes(f, j, n) {
        ConclusionRefines(f, j, n);
      }
    }
  }

  lemma ForwardRefines(f: Files, j: Journal, n: Journal)
    requires f.journal == Some(j) && AdvancesForward(f, j, n)
    ensures Abstract(f.(journal := Some(n))) ==
            if n.phase.Finalizing? then Publish(Abstract(f), n.candidate) else Abstract(f)
  {
  }

  lemma ConclusionRefines(f: Files, j: Journal, n: Journal)
    requires f.journal == Some(j) && Concludes(f, j, n)
    ensures Abstract(f.(journal := Some(n))) == Abstract(f) && !n.phase.Finalizing?
  {
  }

  /** Every crash image after a step comes from one before it.  An image that has the visible journal also had it
      before, and has every publication written since. */
  lemma StepRefines(w: World, s: Step, g: Files) returns (f: Files)
    requires Inv(w) && Allowed(w, s) && Image(Do(w, s), g)
    ensures Image(w, f)
    ensures Abstract(g) == Abstract(f) || (Commits(s) && Abstract(g) == Publish(Abstract(f), s.journal.candidate))
    ensures s.PutJournal? && g.journal == Some(s.journal) ==>
              f.journal == w.vis.journal
              && Abstract(g) == if Commits(s) then Publish(Abstract(f), s.journal.candidate) else Abstract(f)
    ensures !s.PutJournal? && !s.Crash? && g.journal == Do(w, s).vis.journal ==> f.journal == w.vis.journal
  {
    hide Good, Allowed, Moves, InStep, MaySelect;
    if s.PutJournal? && g.journal == Some(s.journal) {
      f := g.(journal := w.vis.journal);
      assert g == f.(journal := Some(s.journal));
      assert Image(w, f);
      MovesInImage(w, s.journal, f);
      MoveRefines(f, s.journal);
    } else {
      f := PriorImage(w, s, g);
      if s.PutSelector? {
        SelectsInImage(w, s.slot, s.digest, f);
      }
    }
  }

  lemma MovesInImage(w: World, n: Journal, f: Files)
    requires Inv(w) && Allowed(w, PutJournal(n)) && Image(w, f) && f.journal == w.vis.journal
    ensures Good(f) && Moves(f, n)
  {
    hide Good, Moves;
  }

  lemma SelectsInImage(w: World, slot: Slot, d: Option<Digest>, f: Files)
    requires Allowed(w, PutSelector(slot, d)) && Image(w, f)
    ensures f.journal.Some?
  {
    assert MaySelect(f, slot, d);
  }

  lemma IntentUnfolds(steps: seq<Step>)
    requires steps != [] && Commits(Last(steps))
    ensures Durable(steps) == Durable(Front(steps))
    ensures Recent(steps) == Recent(Front(steps)) + [Last(steps).journal.candidate]
    ensures Intents(steps) == Intents(Front(steps)) + [Last(steps).journal.candidate]
  {
    assert Durable(Front(steps)) + [] == Durable(Front(steps));
  }

  /** A commit intent extends what is published, if the image has it, and what is to be durable. */
  lemma IntentExtends(steps: seq<Step>, published: seq<Digest>, d: Digest, visible: bool)
    requires steps != [] && Commits(Last(steps)) && d == Last(steps).journal.candidate
    requires Subsequence(Durable(Front(steps)), published) && Subsequence(published, Intents(Front(steps)))
    requires visible ==> Subsequence(Durable(Front(steps)) + Recent(Front(steps)), published)
    ensures Subsequence(Durable(steps), published) && Subsequence(published, Intents(steps))
    ensures Subsequence(Durable(steps), published + [d]) && Subsequence(published + [d], Intents(steps))
    ensures visible ==> Subsequence(Durable(steps) + Recent(steps), published + [d])
  {
    hide Subsequence, Durable, Recent, Intents;
    var durable, recent := Durable(Front(steps)), Recent(Front(steps));
    IntentUnfolds(steps);
    SubsequenceGrows(published, Intents(Front(steps)), d);
    SubsequenceGrows(durable, published, d);
    if visible {
      SubsequenceGrows(durable + recent, published, d);
      assert durable + Recent(steps) == (durable + recent) + [d];
    }
  }

  /** Any other step extends neither; an fsync of the journal makes the recent intents durable. */
  lemma NothingExtends(steps: seq<Step>, published: seq<Digest>, visible: bool)
    requires steps != [] && !Commits(Last(steps))
    requires Subsequence(Durable(Front(steps)), published) && Subsequence(published, Intents(Front(steps)))
    requires visible ==> Subsequence(Durable(Front(steps)) + Recent(Front(steps)), published)
    requires SyncsJournal(Last(steps)) ==> visible
    ensures Subsequence(Durable(steps), published) && Subsequence(published, Intents(steps))
    ensures visible || Last(steps).Crash? ==> Subsequence(Durable(steps) + Recent(steps), published)
  {
    hide Subsequence;
    var durable, recent := Durable(Front(steps)), Recent(Front(steps));
    assert Intents(steps) == Intents(Front(steps));
    assert Durable(steps) == if SyncsJournal(Last(steps)) then durable + recent else durable;
    assert Durable(steps) + Recent(steps) == if Last(steps).Crash? then durable else durable + recent;
  }

  lemma PublishOneMore(r: Register, published: seq<Digest>, d: Digest)
    ensures PublishAll(r, published + [d]) == Publish(PublishAll(r, published), d)
  {
    assert (published + [d])[..|published|] == published;
  }

  /** Refinement: whatever the run and wherever it crashes, the deployment is the initial register after some of
      the publications the run intended, in their order and nothing else, and among them are all those whose
      intent was fsynced before the next crash. */
  lemma {:induction false} RunRefinesRegister(w: World, steps: seq<Step>, g: Files)
      returns (start: Files, published: seq<Digest>)
    requires Inv(w) && Legal(w, steps) && Image(After(w, steps), g)
    ensures Image(w, start)
    ensures Abstract(g) == PublishAll(Abstract(start), published)
    ensures Subsequence(Durable(steps), published) && Subsequence(published, Intents(steps))
    ensures g.journal == After(w, steps).vis.journal ==> Subsequence(Durable(steps) + Recent(steps), published)
  {
    hide Image, Good, Allowed, Inv, Subsequence;
    if steps == [] {
      start, published := g, [];
      NothingIsSubsequence();
      assert Durable(steps) + Recent(steps) == [];
    } else {
      hide Durable, Recent, Intents, PublishAll;
      var before, s := After(w, Front(steps)), Last(steps);
      RunKeepsInv(w, Front(steps));
      var f := StepRefines(before, s, g);
      start, published := RunRefinesRegister(w, Front(steps), f);
      var visible := f.journal == before.vis.journal;
      if Commits(s) {
        IntentExtends(steps, published, s.journal.candidate, visible);
        if g.journal == Some(s.journal) || Abstract(g) != Abstract(f) {
          PublishOneMore(Abstract(start), published, s.journal.candidate);
          published := published + [s.journal.candidate];
        }
      } else {
        if SyncsJournal(s) { SyncedHasVisible(before, s, g); }
        NothingExtends(steps, published, visible);
      }
    }
  }

  lemma NothingIsSubsequence()
    ensures Subsequence([], [])
  {
  }

  /** After an fsync of the journal every crash image has the visible one. */
  lemma SyncedHasVisible(w: World, s: Step, g: Files)
    requires SyncsJournal(s) && Image(Do(w, s), g)
    ensures g.journal == Do(w, s).vis.journal == w.vis.journal
  {
  }

  /** What the invariant says about the selectors outside an interrupted activation or rollback. */
  lemma SelectorsOfJournal(f: Files, j: Journal)
    requires Good(f) && f.journal == Some(j)
    ensures CommitIntent(j) || j.phase.Activated? ==> AtCandidate(j, f.current, f.previous)
    ensures !j.armed && !CommitIntent(j) ==> AtBaseline(j, f.current, f.previous)
    ensures j.phase.StartingBaseline? || j.phase.RolledBack? ==> AtBaseline(j, f.current, f.previous)
  {
  }

  /** The digests a journal may find in a selector. */
  predicate Belongs(j: Journal, slot: Option<Digest>) {
    slot.Some? ==> slot == Some(j.candidate) || slot == j.currentBefore || slot == j.previousBefore
  }

  /** In every phase both selectors are the transaction's own, and they differ outside an activation or rollback. */
  lemma SelectorsBelong(f: Files, j: Journal)
    requires Good(f) && f.journal == Some(j)
    ensures Belongs(j, f.current) && Belongs(j, f.previous)
    ensures CommitIntent(j) || j.phase.Activated? || j.phase.Staging? || j.phase.Prepared? ==>
              SlotsDistinct(f.current, f.previous)
  {
    EveryPhaseIsBetween(j, f.current, f.previous);
  }

  /** Wherever a run crashes, both selectors are the transaction's own, as one of the four pairs of its digests: the
      engine's check that they belong to the transaction never fails. */
  lemma SelectorsStayInTransaction(w: World, steps: seq<Step>, g: Files)
    requires Inv(w) && Legal(w, steps) && Image(After(w, steps), g) && g.journal.Some?
    ensures var j := g.journal.value;
            && Between(j, g.current, g.previous) && Belongs(j, g.current) && Belongs(j, g.previous)
            && (!Window(j.phase) ==> SlotsDistinct(g.current, g.previous))
  {
    hide Good, Image, Legal, After, InStep;
    RunKeepsInv(w, steps);
    assert Good(g);
    SelectorsBelong(g, g.journal.value);
    OwnPair(g, g.journal.value);
    if g.current.Some? && g.current == g.previous {
      SlotsMeetOnlyInWindows(w, steps, g);
    }
  }

  lemma OwnPair(f: Files, j: Journal)
    requires Good(f) && f.journal == Some(j)
    ensures Between(j, f.current, f.previous)
  {
    EveryPhaseIsBetween(j, f.current, f.previous);
  }

  /** A reconciled deployment selects exactly its register. */
  lemma OutcomeSelectsRegister(f: Files)
    requires Good(f)
    ensures Abstract(Outcome(f)) == Abstract(f)
    ensures Register(Outcome(f).current, Outcome(f).previous) == Abstract(f)
  {
    hide Good, RestoreAll, HostRestorePlanned, Retained;
    if f.journal.Some? {
      SelectorsOfJournal(f, f.journal.value);
    }
  }

  /** Reconciling any crash image of any run selects the initial register after the publications that run intended
      and made durable, in their order. */
  lemma RecoverySelectsRegister(w: World, steps: seq<Step>, g: Files) returns (start: Files, published: seq<Digest>)
    requires Inv(w) && Legal(w, steps) && Image(After(w, steps), g)
    ensures Image(w, start)
    ensures Subsequence(Durable(steps), published) && Subsequence(published, Intents(steps))
    ensures Register(Outcome(g).current, Outcome(g).previous) == PublishAll(Abstract(start), published)
  {
    hide Good, Outcome;
    RunKeepsInv(w, steps);
    start, published := RunRefinesRegister(w, steps, g);
    OutcomeSelectsRegister(g);
  }

  /** Deferred garbage does not matter to what is selected. */
  lemma RecoveredSelectsRegister(f: Files, g: Files)
    requires Good(g) && Leaves(f, Outcome(g))
    ensures Abstract(f) == Abstract(g) && Register(f.current, f.previous) == Abstract(g)
    ensures f.journal.Some? ==> f.journal.value.phase.StartingBaseline?
                                || (Terminal(f.journal.value.phase) && f.journal.value.retired)
  {
    OutcomeSelectsRegister(g);
    OutcomeIsQuiescent(g);
  }

  /** A committed N-1 transaction swaps the two slots. */
  lemma NMinusOneSwaps(f: Files, n: Journal)
    requires Good(f) && Moves(f, n) && n.kind.NMinusOne? && n.phase.Finalizing?
    ensures Abstract(f.(journal := Some(n))) == Register(Abstract(f).retained, Abstract(f).selected)
  {
    MoveRefines(f, n);
  }

  // ---- commit is irrevocable ----

  predicate Opening(s: Step) {
    s.PutJournal? && s.journal.phase.Staging?
  }

  ghost predicate Committing(w: World, j: Journal) {
    forall f :: Image(w, f) ==>
      && f.journal.Some? && CommitIntent(f.journal.value)
      && f.journal.value.id == j.id
      && f.journal.value.candidate == j.candidate && f.journal.value.currentBefore == j.currentBefore
  }

  /** What a journal keeps of the transaction it belongs to. */
  predicate SameTransaction(j: Journal, n: Journal) {
    && n.id == j.id && n.kind == j.kind && n.profile == j.profile && n.plan == j.plan && n.candidate == j.candidate
    && n.currentBefore == j.currentBefore && n.previousBefore == j.previousBefore
  }

  lemma ForwardStaysInTransaction(f: Files, j: Journal, n: Journal)
    requires AdvancesForward(f, j, n)
    ensures SameTransaction(j, n) && (CommitIntent(j) ==> n.phase.Committed?)
  {
    hide Arms, MarksDaemon, CommitRecord, Retire, ManagedDaemonPlan;
    if n.phase.Prepared? {
      PreparingStaysInTransaction(f, j, n);
    } else if n.phase.Committed? {
      RecordsStayInTransaction(j);
    } else {
      assert n == j.(phase := n.phase) || n == j.(phase := Finalizing, daemonStarted := false);
    }
  }

  lemma PreparingStaysInTransaction(f: Files, j: Journal, n: Journal)
    requires (j.phase.Staging? && n == j.(phase := Prepared)) || Arms(f, j, n) || MarksDaemon(j, n)
    ensures SameTransaction(j, n) && (j.phase.Staging? || j.phase.Prepared?)
  {
    hide BaselineValid, Canonical, Within, ManagedDaemonPlan;
  }

  lemma RecordsStayInTransaction(j: Journal)
    ensures SameTransaction(j, CommitRecord(j)) && SameTransaction(j, Retire(j))
    ensures CommitRecord(j).phase.Committed? && Retire(j).phase == j.phase
  {
  }

  lemma UndoStaysInTransaction(f: Files, j: Journal, n: Journal)
    requires Undoes(f, j, n)
    ensures SameTransaction(j, n) && !CommitIntent(j)
  {
    UndoIsRewrite(f, j, n);
  }

  lemma ConclusionStaysInTransaction(f: Files, j: Journal, n: Journal)
    requires Concludes(f, j, n)
    ensures SameTransaction(j, n) && !CommitIntent(j)
  {
  }

  /** Only an opening leaves the transaction. */
  lemma MoveStaysInTransaction(f: Files, n: Journal)
    requires Moves(f, n) && f.journal.Some? && !n.phase.Staging?
    ensures SameTransaction(f.journal.value, n) && Advances(f, f.journal.value, n)
    ensures CommitIntent(f.journal.value) ==> n.phase.Committed?
  {
    hide AdvancesForward, Undoes, Concludes, Accepts, HostMatches;
    var j := f.journal.value;
    if AdvancesForward(f, j, n) {
      ForwardStaysInTransaction(f, j, n);
    } else if Undoes(f, j, n) {
      UndoStaysInTransaction(f, j, n);
    } else {
      ConclusionStaysInTransaction(f, j, n);
    }
  }

  lemma CommitStepStays(w: World, s: Step, j: Journal)
    requires Inv(w) && Allowed(w, s) && Committing(w, j) && !Opening(s)
    ensures Committing(Do(w, s), j)
  {
    forall g | Image(Do(w, s), g)
      ensures g.journal.Some? && CommitIntent(g.journal.value) && g.journal.value.id == j.id
              && g.journal.value.candidate == j.candidate && g.journal.value.currentBefore == j.currentBefore
    {
      var f := PriorImage(w, s, g);
      if s.PutJournal? && g != f {
        MoveStaysInTransaction(f, s.journal);
      }
    }
  }

  lemma {:induction false} CommitStays(w: World, steps: seq<Step>, j: Journal)
    requires Inv(w) && Legal(w, steps) && Committing(w, j)
    requires forall i :: 0 <= i < |steps| ==> !Opening(steps[i])
    ensures Committing(After(w, steps), j)
  {
    if steps != [] {
      CommitStays(w, Front(steps), j);
      RunKeepsInv(w, Front(steps));
      CommitStepStays(After(w, Front(steps)), Last(steps), j);
    }
  }

  lemma CommittingSelects(w: World, j: Journal, g: Files)
    requires Inv(w) && Committing(w, j) && Image(w, g)
    ensures g.current == Some(j.candidate) && g.previous == j.currentBefore
  {
  }

  /** Once commit intent is durable, nothing before the next prepare takes it back: every crash image
      still selects the candidate over the former current release. */
  lemma CommitIsIrrevocable(w: World, steps: seq<Step>, j: Journal, g: Files)
    requires Inv(w) && Legal(w, steps) && Committing(w, j)
    requires forall i :: 0 <= i < |steps| ==> !Opening(steps[i])
    requires Image(After(w, steps), g)
    ensures g.current == Some(j.candidate) && g.previous == j.currentBefore
    ensures g.journal.Some? && CommitIntent(g.journal.value) && g.journal.value.id == j.id
  {
    RunKeepsInv(w, steps);
    CommitStays(w, steps, j);
    CommittingSelects(After(w, steps), j, g);
  }

  /** Every disk carries a committed journal. */
  ghost predicate AllCommitted(w: World) {
    forall f :: Image(w, f) ==> f.journal.Some? && f.journal.value.phase.Committed?
  }

  predicate ActsOnUnits(s: Step) {
    s.EnableUnit? || s.StartUnit? || s.StopUnits?
  }

  lemma CommittedStep(w: World, s: Step)
    requires Inv(w) && Allowed(w, s) && AllCommitted(w) && !Opening(s)
    ensures AllCommitted(Do(w, s)) && !ActsOnUnits(s)
  {
    hide Good, Moves, InStep;
    assert Image(w, w.vis);
    CommittedActsOnNothing(w, s);
    forall g | Image(Do(w, s), g) ensures g.journal.Some? && g.journal.value.phase.Committed? {
      var f := PriorImage(w, s, g);
      if s.PutJournal? && g != f {
        MovesInImage(w, s.journal, f);
        MoveStaysInTransaction(f, s.journal);
      }
    }
  }

  lemma CommittedActsOnNothing(w: World, s: Step)
    requires Allowed(w, s) && AllCommitted(w) && Image(w, w.vis)
    ensures !ActsOnUnits(s)
  {
  }

  /** One-shot commit: once `committed` is durable, no continuation before the next prepare enables, starts or
      stops a unit again, whatever it does and wherever it crashes, and every disk stays committed. */
  lemma {:induction false} NothingStartsAfterCommit(w: World, steps: seq<Step>)
    requires Inv(w) && Legal(w, steps) && AllCommitted(w)
    requires forall i :: 0 <= i < |steps| ==> !Opening(steps[i])
    ensures AllCommitted(After(w, steps))
    ensures forall i :: 0 <= i < |steps| ==> !ActsOnUnits(steps[i])
  {
    hide Inv, Image, Allowed, AllCommitted;
    if steps != [] {
      NothingStartsAfterCommit(w, Front(steps));
      RunKeepsInv(w, Front(steps));
      CommittedStep(After(w, Front(steps)), Last(steps));
    }
  }

  /** The transaction is at most at its commit intent, and still wants its units. */
  ghost predicate Finalizes(w: World, j: Journal) {
    forall f :: Image(w, f) ==> f.journal == Some(j)
  }

  lemma FinalizingStep(w: World, s: Step, j: Journal)
    requires Inv(w) && Allowed(w, s) && Finalizes(w, j) && j.phase.Finalizing? && !Opening(s)
    ensures Finalizes(Do(w, s), j)
            || (s == PutJournal(CommitRecord(j)) && forall u :: u in j.enable ==> u in w.enabled)
  {
    hide Good;
    assert Image(w, w.vis);
    if s.PutJournal? {
      FinalizingMove(w.vis, s.journal);
    } else {
      forall g | Image(Do(w, s), g) ensures g.journal == Some(j) {
        var f := PriorImage(w, s, g);
      }
    }
  }

  lemma FinalizingMove(f: Files, n: Journal)
    requires Moves(f, n) && f.journal.Some? && f.journal.value.phase.Finalizing? && !n.phase.Staging?
    ensures n == CommitRecord(f.journal.value)
  {
    MoveStaysInTransaction(f, n);
  }

  /** A commit intent leaves its phase only by a `committed` record written while every wanted unit was enabled. */
  lemma {:induction false} CommittedUnitsAreEnabled(w: World, steps: seq<Step>, j: Journal) returns (k: nat)
    requires Inv(w) && Legal(w, steps) && Finalizes(w, j) && j.phase.Finalizing?
    requires forall i :: 0 <= i < |steps| ==> !Opening(steps[i])
    ensures k <= |steps|
    ensures k == |steps| ==> Finalizes(After(w, steps), j)
    ensures k < |steps| ==> Finalizes(After(w, steps[..k]), j) && steps[k] == PutJournal(CommitRecord(j))
                            && forall u :: u in j.enable ==> u in After(w, steps[..k]).enabled
  {
    hide Inv, Image, Good, Allowed;
    if steps == [] {
      k := 0;
    } else {
      k := CommittedUnitsAreEnabled(w, Front(steps), j);
      RunKeepsInv(w, Front(steps));
      if k == |Front(steps)| {
        FinalizingStep(After(w, Front(steps)), Last(steps), j);
        assert steps[..k] == Front(steps);
        if Finalizes(After(w, steps), j) {
          k := |steps|;
        }
      } else {
        assert Front(steps)[..k] == steps[..k];
      }
    }
  }

  // ---- the consumer obligation ----

  /** The transaction still owes its baseline consumers a restart. */
  predicate Owes(f: Files, active: seq<Unit>) {
    && f.journal.Some?
    && f.journal.value.armed && f.journal.value.activeBefore == active
    && !f.journal.value.phase.Finalizing?
  }

  ghost predicate Owing(w: World, active: seq<Unit>) {
    forall f :: Image(w, f) ==> Owes(f, active)
  }

  /** The step acknowledges a pending journal while every unit, but a daemon that was never taken over, is active and
      ready. */
  predicate Discharges(w: World, s: Step, active: seq<Unit>) {
    && w.vis.journal.Some? && w.vis.journal.value.activeBefore == active
    && s == PutJournal(AcknowledgedRecord(w.vis.journal.value))
    && forall u :: u in active && (u.Daemon? ==> w.vis.journal.value.daemonStarted) ==> u in w.active && u in w.ready
  }

  lemma OwedMove(f: Files, n: Journal, active: seq<Unit>)
    requires Good(f) && Moves(f, n) && Owes(f, active) && active != [] && !n.phase.Finalizing?
    ensures Owes(f.(journal := Some(n)), active)
            || (f.journal.value.phase.StartingBaseline? && n == AcknowledgedRecord(f.journal.value))
  {
    var j := f.journal.value;
    assert !j.retired;
    if AdvancesForward(f, j, n) {
    } else if Undoes(f, j, n) {
      UndoMarkers(f, j, n);
    } else {
    }
  }

  lemma OwedStep(w: World, s: Step, active: seq<Unit>)
    requires Inv(w) && Allowed(w, s) && Owing(w, active) && active != [] && !Commits(s)
    ensures Owing(Do(w, s), active) || Discharges(w, s, active)
  {
    hide Good, InStep, Image, Moves, EffectivePlan, Fenced;
    VisibleIsImage(w);
    if w.vis.journal.Some? { ConsumersOfJournal(w.vis, w.vis.journal.value); }
    if !Discharges(w, s, active) {
      forall g | Image(Do(w, s), g) ensures Owes(g, active) {
        var f := PriorImage(w, s, g);
        if s.PutJournal? {
          OwedMove(w.vis, s.journal, active);
          if g != f {
            assert Owes(w.vis.(journal := Some(s.journal)), active);
          }
        }
      }
    }
  }

  /** An armed rollback with active baseline consumers ends only by an acknowledgement that saw each of them active and
      ready, but a daemon it never took over; until then, through any crashes, the debt stays on disk. */
  lemma {:induction false} ObligationSurvives(w: World, steps: seq<Step>, active: seq<Unit>) returns (k: nat)
    requires Inv(w) && Legal(w, steps) && Owing(w, active) && active != []
    requires forall i :: 0 <= i < |steps| ==> !Commits(steps[i])
    ensures k <= |steps|
    ensures k == |steps| ==> Owing(After(w, steps), active)
    ensures k < |steps| ==> Discharges(After(w, steps[..k]), steps[k], active)
  {
    if steps == [] {
      k := 0;
    } else {
      k := ObligationSurvives(w, Front(steps), active);
      RunKeepsInv(w, Front(steps));
      if k == |Front(steps)| {
        OwedStep(After(w, Front(steps)), Last(steps), active);
        assert steps[..k] == Front(steps);
        if Owing(After(w, steps), active) {
          k := |steps|;
        }
      } else {
        assert Front(steps)[..k] == steps[..k];
      }
    }
  }

  // ---- daemon ownership ----

  predicate OwnsDaemon(f: Files) {
    f.journal.Some? && ManagedDaemonPlan(f.journal.value) && f.journal.value.daemonStarted
  }

  /** A stop or start of the daemon outside commit finalization. */
  predicate TouchesDaemon(w: World, s: Step) {
    || (s.StopUnits? && (s.force || Daemon in s.units))
    || (s.StartUnit? && s.unit.Daemon? && !(w.vis.journal.Some? && w.vis.journal.value.phase.Finalizing?))
  }

  /** The rollback of a marked daemon plan, up to its terminal record. */
  predicate UndoesDaemon(f: Files) {
    && f.journal.Some?
    && var j := f.journal.value;
       || j.phase.RolledBack?
       || (&& OwnsDaemon(f) && !CommitIntent(j)
           && !j.phase.Staging? && !j.phase.Prepared? && !j.phase.SwitchingCurrent? && !j.phase.CurrentSwitched?
           && !j.phase.SwitchingPrevious? && !j.phase.Activated?)
  }

  lemma TouchIsMarked(w: World, s: Step, f: Files)
    requires Inv(w) && Allowed(w, s) && TouchesDaemon(w, s) && Image(w, f)
    ensures UndoesDaemon(f) && OwnsDaemon(f)
  {
    hide Good, UndoesDaemon, OwnsDaemon, EffectivePlan, ManagedDaemonPlan, Fenced, HandsOver, UnitEvidence;
    VisibleIsImage(w);
    if s.StopUnits? {
      StopIsMarked(f, f.journal.value);
    } else {
      StartIsMarked(w.vis, w.vis.journal.value);
      StartingIsMarkedBefore(w, f);
    }
  }

  lemma StopIsMarked(f: Files, j: Journal)
    requires Good(f) && f.journal == Some(j) && j.phase.StoppingConsumers?
    requires (ManagedDaemonPlan(j) && j.daemonStarted) || Daemon in EffectivePlan(j)
    ensures UndoesDaemon(f) && OwnsDaemon(f)
  {
    assert Accepts(f.allowlist, f.backups, j);
  }

  lemma StartIsMarked(f: Files, j: Journal)
    requires Good(f) && f.journal == Some(j) && j.phase.StartingBaseline? && Fenced(j, Daemon)
    ensures UndoesDaemon(f) && OwnsDaemon(f)
  {
    assert Accepts(f.allowlist, f.backups, j);
  }

  lemma StartingIsMarkedBefore(w: World, f: Files)
    requires InStep(w) && f.journal in {w.vis.journal, w.dur.journal}
    requires w.vis.journal.Some? && w.vis.journal.value.phase.StartingBaseline? && OwnsDaemon(w.vis)
    ensures UndoesDaemon(f) && OwnsDaemon(f)
  {
  }

  lemma UndoingDaemonStep(w: World, s: Step)
    requires Inv(w) && Allowed(w, s) && !Opening(s)
    requires forall f :: Image(w, f) ==> UndoesDaemon(f)
    ensures forall g :: Image(Do(w, s), g) ==> UndoesDaemon(g)
  {
    hide Good, InStep, Allowed, Moves;
    forall g | Image(Do(w, s), g) ensures UndoesDaemon(g) {
      var f := PriorImage(w, s, g);
      if s.PutJournal? && g != f {
        MovesInImage(w, s.journal, f);
        MoveStaysInTransaction(f, s.journal);
        UndoingDaemonMove(f, f.journal.value, s.journal);
      }
    }
  }

  lemma UndoingDaemonMove(f: Files, j: Journal, n: Journal)
    requires f.journal == Some(j) && UndoesDaemon(f) && Advances(f, j, n)
    ensures UndoesDaemon(f.(journal := Some(n)))
  {
    if Undoes(f, j, n) {
      UndoIsRewrite(f, j, n);
    }
  }

  /** Whatever run, and wherever it crashes: when the daemon is touched outside finalization its marker is on every disk,
      and it stays on every disk until the rollback has its terminal record. */
  lemma {:induction false} DaemonTouchedOnlyUnderMarker(w: World, steps: seq<Step>, i: nat, k: nat)
    requires Inv(w) && Legal(w, steps) && i < |steps| && i <= k <= |steps|
    requires TouchesDaemon(After(w, steps[..i]), steps[i])
    requires forall m :: i <= m < k ==> !Opening(steps[m])
    ensures forall f :: Image(After(w, steps[..i]), f) ==> OwnsDaemon(f)
    ensures forall g :: Image(After(w, steps[..k]), g) ==> UndoesDaemon(g)
    decreases k
  {
    hide Inv, Image, Allowed, UndoesDaemon, OwnsDaemon, TouchesDaemon;
    StepOfRun(w, steps, i);
    var x := After(w, steps[..i]);
    forall f | Image(x, f) ensures OwnsDaemon(f) && UndoesDaemon(f) {
      TouchIsMarked(x, steps[i], f);
    }
    if k > i {
      DaemonTouchedOnlyUnderMarker(w, steps, i, k - 1);
      StepOfRun(w, steps, k - 1);
      UndoingDaemonStep(After(w, steps[..k - 1]), steps[k - 1]);
    }
  }

  /** Each step of a run is permitted in the world the steps before it lead to. */
  lemma {:induction false} StepOfRun(w: World, steps: seq<Step>, i: nat)
    requires Inv(w) && Legal(w, steps) && i < |steps|
    ensures Inv(After(w, steps[..i])) && Allowed(After(w, steps[..i]), steps[i])
    ensures After(w, steps[..i + 1]) == Do(After(w, steps[..i]), steps[i])
  {
    hide Inv, Allowed;
    assert Front(steps[..i + 1]) == steps[..i];
    if i + 1 == |steps| {
      assert steps[..i + 1] == steps;
      RunKeepsInv(w, Front(steps));
    } else {
      assert Front(steps)[..i] == steps[..i];
      StepOfRun(w, Front(steps), i);
    }
  }

  /** A managed archive that owns the daemon in its plan moves a selector only under the marker. */
  lemma SelectorMovesOnlyUnderMarker(w: World, slot: Slot, d: Option<Digest>, f: Files)
    requires Inv(w) && Allowed(w, PutSelector(slot, d)) && Image(w, f)
    requires ManagedDaemonPlan(f.journal.value) && Select(f, slot, d) != f
    ensures OwnsDaemon(f)
  {
    assert MaySelect(f, slot, d);
  }

  /** Every disk still has the transaction of `j`, before its commit intent, over its baseline selectors. */
  ghost predicate Unmoved(w: World, j: Journal) {
    forall f :: Image(w, f) ==>
      && f.journal.Some? && SameTransaction(j, f.journal.value) && !CommitIntent(f.journal.value)
      && AtBaseline(j, f.current, f.previous)
  }

  ghost predicate Owned(w: World) {
    forall f :: Image(w, f) ==> OwnsDaemon(f)
  }

  lemma UnmovedStep(w: World, s: Step, j: Journal)
    requires Inv(w) && Allowed(w, s) && Unmoved(w, j) && ManagedDaemonPlan(j) && !Opening(s)
    ensures Unmoved(Do(w, s), j) || Owned(w)
  {
    hide Good, InStep;
    if s.PutSelector? && !Owned(w) {
      SelectorStaysUnmoved(w, s.slot, s.digest);
    }
    if !Owned(w) {
      forall g | Image(Do(w, s), g)
        ensures g.journal.Some? && SameTransaction(j, g.journal.value) && !CommitIntent(g.journal.value)
                && AtBaseline(j, g.current, g.previous)
      {
        var f := PriorImage(w, s, g);
        if s.PutJournal? && g != f {
          MoveStaysInTransaction(f, s.journal);
          NotYetFinalizing(f, j, s.journal);
        }
      }
    }
  }

  /** Without the marker on every disk no selector write changes anything. */
  lemma SelectorStaysUnmoved(w: World, slot: Slot, d: Option<Digest>)
    requires Inv(w) && Allowed(w, PutSelector(slot, d)) && !Owned(w)
    requires forall f :: Image(w, f) ==> f.journal.Some? && ManagedDaemonPlan(f.journal.value)
    ensures forall f :: Image(w, f) ==> Select(f, slot, d) == f
  {
    hide Good, InStep;
    forall f | Image(w, f) ensures Select(f, slot, d) == f {
      if Select(f, slot, d) != f {
        forall g | Image(w, g) ensures OwnsDaemon(g) {
          SelectorMovesOnlyUnderMarkers(w, slot, d, f, g);
        }
      }
    }
  }

  lemma SelectorMovesOnlyUnderMarkers(w: World, slot: Slot, d: Option<Digest>, f: Files, g: Files)
    requires Inv(w) && Allowed(w, PutSelector(slot, d)) && Image(w, f) && Image(w, g)
    requires f.journal.Some? && ManagedDaemonPlan(f.journal.value) && Select(f, slot, d) != f
    requires g.journal.Some? && ManagedDaemonPlan(g.journal.value)
    ensures OwnsDaemon(g)
  {
    hide Good, InStep;
    var h := g.(current := f.current, previous := f.previous);
    assert Image(w, h) && Select(h, slot, d) != h;
    SelectorMovesOnlyUnderMarker(w, slot, d, h);
  }

  lemma NotYetFinalizing(f: Files, j: Journal, n: Journal)
    requires Good(f) && f.journal.Some? && SameTransaction(j, f.journal.value) && AtBaseline(j, f.current, f.previous)
    requires !CommitIntent(f.journal.value) && Advances(f, f.journal.value, n)
    ensures !CommitIntent(n)
  {
    assert PhaseAdmits(f.journal.value, f.current, f.previous) && DigestsValid(f.journal.value);
  }

  /** A managed archive whose plan owns the daemon reaches its commit intent, and with it the enabling and starting
      of the daemon in finalization, only after its marker was on every disk. */
  lemma {:induction false} DaemonCommitNeedsMarker(w: World, steps: seq<Step>, j: Journal) returns (k: nat)
    requires Inv(w) && Legal(w, steps) && Unmoved(w, j) && ManagedDaemonPlan(j)
    requires forall i :: 0 <= i < |steps| ==> !Opening(steps[i])
    ensures k <= |steps|
    ensures k == |steps| ==> Unmoved(After(w, steps), j)
    ensures k < |steps| ==> Unmoved(After(w, steps[..k]), j) && Owned(After(w, steps[..k]))
  {
    hide Inv, Image, Good, Allowed;
    if steps == [] {
      k := 0;
    } else {
      k := DaemonCommitNeedsMarker(w, Front(steps), j);
      RunKeepsInv(w, Front(steps));
      if k == |Front(steps)| {
        UnmovedStep(After(w, Front(steps)), Last(steps), j);
        assert steps[..k] == Front(steps);
        if Unmoved(After(w, steps), j) {
          k := |steps|;
        }
      } else {
        assert Front(steps)[..k] == steps[..k];
      }
    }
  }

  // ---- exact host restoration ----

  /** The live archive transaction keeps the host records it opened with. */
  predicate KeepsRecords(f: Files, records: seq<HostRecord>) {
    && f.journal.Some? && f.journal.value.kind.Archive?
    && (f.journal.value.retired || f.journal.value.hostArtifacts == records)
  }

  lemma RecordsStep(w: World, s: Step, records: seq<HostRecord>)
    requires Inv(w) && Allowed(w, s) && !Opening(s)
    requires forall f :: Image(w, f) ==> KeepsRecords(f, records)
    ensures forall g :: Image(Do(w, s), g) ==> KeepsRecords(g, records)
  {
    forall g | Image(Do(w, s), g) ensures KeepsRecords(g, records) {
      var f := PriorImage(w, s, g);
      if s.PutJournal? && g != f {
        RecordsMove(f, s.journal, records);
      }
    }
  }

  lemma RecordsMove(f: Files, n: Journal, records: seq<HostRecord>)
    requires Good(f) && Moves(f, n) && !n.phase.Staging? && KeepsRecords(f, records)
    ensures KeepsRecords(f.(journal := Some(n)), records)
  {
    hide Good, AdvancesForward, Undoes, Concludes, Opens;
    var j := f.journal.value;
    assert !Opens(f, n) by {
      OpensStaging(f, n);
    }
    if AdvancesForward(f, j, n) {
      ForwardKeepsRecords(f, j, n);
    } else if Undoes(f, j, n) {
      UndoKeepsRecords(f, j, n);
    } else {
      ConclusionKeepsRecords(f, j, n);
    }
  }

  lemma OpensStaging(f: Files, n: Journal)
    ensures Opens(f, n) ==> n.phase.Staging?
  {
  }

  lemma ForwardKeepsRecords(f: Files, j: Journal, n: Journal)
    requires AdvancesForward(f, j, n)
    ensures n.kind == j.kind && (n.retired || (!j.retired && n.hostArtifacts == j.hostArtifacts))
  {
  }

  lemma UndoKeepsRecords(f: Files, j: Journal, n: Journal)
    requires Undoes(f, j, n)
    ensures n.kind == j.kind && (n.retired || (!j.retired && n.hostArtifacts == j.hostArtifacts))
  {
  }

  lemma ConclusionKeepsRecords(f: Files, j: Journal, n: Journal)
    requires Concludes(f, j, n)
    ensures n.kind == j.kind && (n.retired || (!j.retired && n.hostArtifacts == j.hostArtifacts))
  {
  }

  lemma {:induction false} RecordsStay(w: World, steps: seq<Step>, records: seq<HostRecord>)
    requires Inv(w) && Legal(w, steps)
    requires forall f :: Image(w, f) ==> KeepsRecords(f, records)
    requires forall i :: 0 <= i < |steps| ==> !Opening(steps[i])
    ensures forall g :: Image(After(w, steps), g) ==> KeepsRecords(g, records)
  {
    if steps != [] {
      RecordsStay(w, Front(steps), records);
      RunKeepsInv(w, Front(steps));
      RecordsStep(After(w, Front(steps)), Last(steps), records);
    }
  }

  /** From the opening of an archive transaction to the end of its rollback, whatever crashed in between:
      every recorded path holds again exactly what it held, absence included. */
  lemma ArchiveRollbackRestoresHost(w: World, steps: seq<Step>, j: Journal, g: Files)
    requires Inv(w) && Legal(w, steps)
    requires forall f :: Image(w, f) ==> f.journal == Some(j)
    requires j.kind.Archive? && j.phase.Staging?
    requires forall i :: 0 <= i < |steps| ==> !Opening(steps[i])
    requires Image(After(w, steps), g)
    requires g.journal.Some? && g.journal.value.phase.RolledBack? && !g.journal.value.retired
    ensures forall i :: 0 <= i < |j.hostArtifacts| ==>
              At(g.host, j.hostArtifacts[i].path) == At(w.vis.host, j.hostArtifacts[i].path)
  {
    VisibleIsImage(w);
    RunKeepsInv(w, steps);
    RecordsStay(w, steps, j.hostArtifacts);
    assert Good(w.vis) && HostExact(j);
    assert Good(g) && HostExact(g.journal.value);
    assert g.journal.value.hostArtifacts == j.hostArtifacts;
  }

  /** What one disk may hold at a path of the host the run began with. */
  ghost predicate Confined(w: World, records: seq<HostRecord>, p: HostPath, a: Artifact) {
    || a == At(w.vis.host, p) || a == At(w.dur.host, p)
    || exists i :: 0 <= i < |records| && records[i].path == p && a == Recorded(records[i])
  }

  lemma ConfinedStep(w: World, x: World, s: Step, records: seq<HostRecord>, p: HostPath)
    requires Inv(x) && Allowed(x, s) && !s.HostDrift?
    requires forall f :: Image(x, f) ==> KeepsRecords(f, records)
    requires forall f :: Image(x, f) ==> Confined(w, records, p, At(f.host, p))
    ensures forall g :: Image(Do(x, s), g) ==> Confined(w, records, p, At(g.host, p))
  {
    hide Good, InStep, Allowed, Image, Confined, KeepsRecords, Recorded;
    VisibleIsImage(x);
    CrashIsImage(x, s);
    forall g | Image(Do(x, s), g) ensures Confined(w, records, p, At(g.host, p)) {
      HostStep(x, s, p, g);
      if s.RestoreHost? && s.record.path == p {
        RestoresRecorded(x, s.record, records);
        RecordedIsConfined(w, records, s.record, p);
      }
    }
  }

  lemma CrashIsImage(x: World, s: Step)
    requires Allowed(x, s)
    ensures s.Crash? ==> Image(x, s.image)
  {
  }

  /** Between two crashes a step puts nothing at a path but the artifact it restores there. */
  lemma HostStep(x: World, s: Step, p: HostPath, g: Files)
    requires !s.HostDrift? && Image(Do(x, s), g)
    ensures || At(g.host, p) == At(x.vis.host, p) || At(g.host, p) == At(x.dur.host, p)
            || (s.RestoreHost? && s.record.path == p && At(g.host, p) == Recorded(s.record))
            || (s.Crash? && At(g.host, p) == At(s.image.host, p))
  {
    var y := Do(x, s);
    assert At(g.host, p) == At(y.vis.host, p) || At(g.host, p) == At(y.dur.host, p);
  }

  lemma RestoresRecorded(x: World, r: HostRecord, records: seq<HostRecord>)
    requires Inv(x) && Allowed(x, RestoreHost(r))
    requires forall f :: Image(x, f) ==> KeepsRecords(f, records)
    ensures r in records
  {
    hide Good, InStep;
    VisibleIsImage(x);
    RestoringIsLive(x.vis, x.vis.journal.value);
  }

  lemma RestoringIsLive(f: Files, j: Journal)
    requires Good(f) && f.journal == Some(j) && j.phase.RestoringHost?
    ensures !j.retired && AtBaseline(j, f.current, f.previous)
  {
  }

  lemma RecordedIsConfined(w: World, records: seq<HostRecord>, r: HostRecord, p: HostPath)
    requires r in records && r.path == p
    ensures Confined(w, records, p, Recorded(r))
  {
    var i :| 0 <= i < |records| && records[i] == r;
  }

  /** Over any run of an archive transaction, crashes included, the engine changes no host path but to the artifact its
      snapshot recorded there: every disk holds at every path what the run began with, or the recorded artifact. */
  lemma {:induction false} RestorationIsConfined(w: World, steps: seq<Step>, records: seq<HostRecord>, p: HostPath)
    requires Inv(w) && Legal(w, steps)
    requires forall f :: Image(w, f) ==> KeepsRecords(f, records)
    requires forall i :: 0 <= i < |steps| ==> !Opening(steps[i]) && !steps[i].HostDrift?
    ensures forall g :: Image(After(w, steps), g) ==> Confined(w, records, p, At(g.host, p))
  {
    hide Good, InStep, Allowed, KeepsRecords;
    if steps != [] {
      RestorationIsConfined(w, Front(steps), records, p);
      RecordsStay(w, Front(steps), records);
      RunKeepsInv(w, Front(steps));
      ConfinedStep(w, After(w, Front(steps)), Last(steps), records, p);
    }
  }

  /** Host paths are restored only after both selectors are back at the baseline on every disk, and only as recorded. */
  lemma RestoresFollowSelectors(w: World, steps: seq<Step>, i: nat, f: Files)
    requires Inv(w) && Legal(w, steps) && i < |steps| && steps[i].RestoreHost?
    requires Image(After(w, steps[..i]), f)
    ensures f.journal.Some? && steps[i].record in f.journal.value.hostArtifacts
    ensures AtBaseline(f.journal.value, f.current, f.previous) && !f.journal.value.retired
  {
    hide Good, InStep, Image;
    StepOfRun(w, steps, i);
    RestoringIsLive(f, f.journal.value);
  }

  // ---- recovery converges through crashes ----

  ghost predicate RecoveryRun(w: World, steps: seq<Step>) {
    steps != [] ==> RecoveryRun(w, Front(steps)) && RecoveryStep(After(w, Front(steps)), Last(steps))
  }

  /** However many reconciles crashed, and wherever: once all disks recover to the same one, they always do. */
  lemma {:induction false} CrashedRecoveriesConverge(w: World, steps: seq<Step>, o: Files)
    requires Inv(w) && Converges(w, o) && RecoveryRun(w, steps)
    ensures Inv(After(w, steps)) && forall g :: Image(After(w, steps), g) ==> Outcome(g) == o
  {
    if steps != [] {
      CrashedRecoveriesConverge(w, Front(steps), o);
      RecoveryStepKeepsOutcome(After(w, Front(steps)), Last(steps), o);
    }
  }
}
