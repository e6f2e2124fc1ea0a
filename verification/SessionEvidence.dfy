/** validate_canonical_session: local checks over mutations and groups, and the global structure of the session
    they imply. */
module SessionEvidence {
  import R = ReleaseTypes

  type Uuid = string
  type Port = nat
  type Time = int

  datatype Operation = Start | Stop | Pause | Resume | Update

  datatype CompletionMode = Direct | Recovered | Replayed | HardStop

  datatype PortState = Running | Stopped | Paused | Idle | Unknown

  type States = map<Port, PortState>

  datatype Mutation = Mutation(
    nonce: Uuid,
    operation: Operation,
    mode: CompletionMode,
    ports: seq<Port>,
    baseline: States,
    desired: States,
    acquired: seq<Port>,
    prepared: Time,
    completed: Time,
    acquisitionRestored: bool,
    walCleared: bool
  )

  datatype Cleanup = Cleanup(
    nonce: Uuid, operatorStop: bool, completed: Time, finalStates: States, acquisitionRestored: bool, walCleared: bool
  )

  datatype Group = Group(
    runId: Uuid,
    planId: R.Option<string>,
    ports: seq<Port>,
    states: States,
    stopped: bool,
    leaseCleared: bool,
    started: Time,
    ended: Time,
    updated: Time,
    startEvidence: Mutation,
    cleanup: Cleanup
  )

  /** A session; `groups` lists the current groups, then the completed ones. */
  datatype Session = Session(
    id: Uuid, stopped: bool, started: Time, ended: Time, updated: Time, mutations: seq<Mutation>, groups: seq<Group>
  )

  // ---- one record ----

  predicate Unique<T(==)>(xs: seq<T>) {
    forall i, k :: 0 <= i < k < |xs| ==> xs[i] != xs[k]
  }

  function Members<T>(xs: seq<T>): set<T> {
    set x | x in xs
  }

  predicate PortsValid(ports: seq<Port>) {
    ports != [] && Unique(ports)
  }

  function AllIn(ports: seq<Port>, state: PortState): States {
    map p | p in ports :: state
  }

  /** The state every target port must be meant to reach. */
  function Goal(operation: Operation): R.Option<PortState> {
    match operation
    case Start | Resume => R.Some(Running)
    case Stop => R.Some(Stopped)
    case Pause => R.Some(Paused)
    case Update => R.None
  }

  /** What validate_mutation_evidence accepts. */
  predicate MutationValid(m: Mutation) {
    && !m.mode.HardStop? && PortsValid(m.ports)
    && Members(m.ports) <= m.baseline.Keys && Unknown !in m.baseline.Values
    && m.desired.Keys == Members(m.ports)
    && (Goal(m.operation).Some? ==> m.desired == AllIn(m.ports, Goal(m.operation).value))
    && (m.operation.Update? ==> forall p :: p in m.ports ==> m.desired[p] == m.baseline[p])
    && Unique(m.acquired) && Members(m.acquired) <= Members(m.ports)
    && m.prepared <= m.completed && m.acquisitionRestored && m.walCleared
  }

  /** What validate_cleanup_evidence accepts. */
  predicate CleanupValid(c: Cleanup, ports: seq<Port>) {
    c.operatorStop && c.finalStates == AllIn(ports, Stopped) && c.acquisitionRestored && c.walCleared
  }

  // ---- the local checks, declaratively ----

  predicate NoncesUnique(ms: seq<Mutation>) {
    forall i, k :: 0 <= i < k < |ms| ==> ms[i].nonce != ms[k].nonce
  }

  predicate StartedBy(g: Group, ms: seq<Mutation>) {
    && g.startEvidence in ms && g.startEvidence.nonce == g.runId
    && g.startEvidence.operation.Start? && g.startEvidence.ports == g.ports && g.startEvidence.completed == g.started
  }

  predicate StopsGroup(m: Mutation, g: Group) {
    && m.nonce == g.cleanup.nonce && m.operation.Stop? && Members(g.ports) <= Members(m.ports)
    && m.completed == g.cleanup.completed == g.ended
  }

  predicate StoppedBy(g: Group, ms: seq<Mutation>) {
    exists m :: m in ms && StopsGroup(m, g)
  }

  /** The checks on one group that involve no other group. */
  predicate GroupFits(s: Session, g: Group) {
    && PortsValid(g.ports) && g.leaseCleared && g.stopped && g.states == AllIn(g.ports, Stopped)
    && s.started <= g.started <= g.ended <= g.updated <= s.updated
    && StartedBy(g, s.mutations) && CleanupValid(g.cleanup, g.ports) && StoppedBy(g, s.mutations)
  }

  predicate Apart(a: Group, b: Group) {
    && a.runId != b.runId && (a.planId.Some? ==> a.planId != b.planId)
    && forall p :: p in a.ports ==> p !in b.ports
  }

  predicate GroupsApart(groups: seq<Group>) {
    forall i, k :: 0 <= i < k < |groups| ==> Apart(groups[i], groups[k])
  }

  function Nonces(ms: seq<Mutation>, operation: Operation): set<Uuid> {
    set m | m in ms && m.operation == operation :: m.nonce
  }

  function RunIds(groups: seq<Group>): set<Uuid> {
    set g | g in groups :: g.runId
  }

  function CleanupNonces(groups: seq<Group>): set<Uuid> {
    set g | g in groups :: g.cleanup.nonce
  }

  /** The latest of the completions of the mutations with these nonces. */
  predicate LatestCompletion(ms: seq<Mutation>, nonces: set<Uuid>, t: Time) {
    && (exists m :: m in ms && m.nonce in nonces && m.completed == t)
    && (forall m :: m in ms && m.nonce in nonces ==> m.completed <= t)
  }

  predicate MutationsFit(s: Session) {
    && s.mutations != [] && (forall m :: m in s.mutations ==> MutationValid(m)) && NoncesUnique(s.mutations)
    && s.mutations[0].operation.Start? && s.mutations[0].nonce == s.id && s.mutations[0].completed == s.started
    && forall m :: m in s.mutations ==> m.operation.Start? || m.operation.Stop?
  }

  predicate GroupsFit(s: Session) {
    && s.groups != [] && GroupsApart(s.groups)
    && forall g :: g in s.groups ==> GroupFits(s, g)
  }

  /** The sessions validate_canonical_session accepts. */
  predicate Accepted(s: Session) {
    && s.stopped && s.started <= s.ended <= s.updated
    && MutationsFit(s) && GroupsFit(s)
    && Nonces(s.mutations, Start) == RunIds(s.groups)
    && Nonces(s.mutations, Stop) == CleanupNonces(s.groups)
    && LatestCompletion(s.mutations, CleanupNonces(s.groups), s.ended)
  }

  // ---- the global structure ----

  /** The group a start mutation belongs to. */
  lemma GroupOfStart(s: Session, m: Mutation) returns (k: nat)
    requires Accepted(s) && m in s.mutations && m.operation.Start?
    ensures k < |s.groups| && s.groups[k].startEvidence == m
  {
    assert m.nonce in Nonces(s.mutations, Start);
    var g :| g in s.groups && g.runId == m.nonce;
    k :| 0 <= k < |s.groups| && s.groups[k] == g;
    assert GroupFits(s, g);
    SameNonceIsSame(s.mutations, g.startEvidence, m);
  }

  lemma StartOfGroup(s: Session, g: Group)
    requires Accepted(s) && g in s.groups
    ensures g.startEvidence in s.mutations && g.startEvidence.operation.Start? && g.startEvidence.nonce == g.runId
    ensures g.startEvidence.ports == g.ports && g.startEvidence.completed == g.started
  {
  }

  /** Start mutations and groups are in one-to-one correspondence. */
  lemma StartsMatchGroups(s: Session)
    requires Accepted(s)
    ensures forall m :: m in s.mutations && m.operation.Start? ==>
              exists k :: 0 <= k < |s.groups| && s.groups[k].startEvidence == m
    ensures forall g :: g in s.groups ==> g.startEvidence in s.mutations && g.startEvidence.operation.Start?
    ensures forall k, l :: 0 <= k < l < |s.groups| ==> s.groups[k].startEvidence != s.groups[l].startEvidence
  {
    hide GroupFits, MutationValid;
    forall m | m in s.mutations && m.operation.Start?
      ensures exists k :: 0 <= k < |s.groups| && s.groups[k].startEvidence == m
    {
      var k := GroupOfStart(s, m);
    }
    forall g | g in s.groups ensures g.startEvidence in s.mutations && g.startEvidence.operation.Start? {
      StartOfGroup(s, g);
    }
    forall k, l | 0 <= k < l < |s.groups| ensures s.groups[k].startEvidence != s.groups[l].startEvidence {
      StartOfGroup(s, s.groups[k]);
      StartOfGroup(s, s.groups[l]);
      assert Apart(s.groups[k], s.groups[l]);
    }
  }

  lemma SameNonceIsSame(ms: seq<Mutation>, a: Mutation, b: Mutation)
    requires NoncesUnique(ms) && a in ms && b in ms && a.nonce == b.nonce
    ensures a == b
  {
  }

  lemma StartsAreNoStops(ms: seq<Mutation>)
    requires NoncesUnique(ms)
    ensures Nonces(ms, Start) !! Nonces(ms, Stop)
  {
  }

  /** Every stop cleaned up some group, so a session has at most two mutations per group. */
  lemma MutationsAreBounded(s: Session)
    requires Accepted(s)
    ensures |s.groups| < |s.mutations| <= 2 * |s.groups|
  {
    var starts, stops := Nonces(s.mutations, Start), Nonces(s.mutations, Stop);
    NoncesCount(s.mutations);
    assert (set m | m in s.mutations :: m.nonce) == starts + stops;
    StartsAreNoStops(s.mutations);
    RunIdsCount(s.groups);
    CleanupsCount(s.groups);
    assert s.groups[0].cleanup.nonce in stops;
  }

  lemma {:induction false} NoncesCount(ms: seq<Mutation>)
    requires NoncesUnique(ms)
    ensures |set m | m in ms :: m.nonce| == |ms|
  {
    var all := set m | m in ms :: m.nonce;
    if ms != [] {
      var n := |ms| - 1;
      NoncesCount(ms[..n]);
      var rest := set m | m in ms[..n] :: m.nonce;
      assert ms == ms[..n] + [ms[n]];
      assert all == rest + {ms[n].nonce};
      assert ms[n].nonce !in rest;
    }
  }

  lemma {:induction false} RunIdsCount(groups: seq<Group>)
    requires GroupsApart(groups)
    ensures |RunIds(groups)| == |groups|
  {
    if groups != [] {
      var n := |groups| - 1;
      RunIdsCount(groups[..n]);
      assert groups == groups[..n] + [groups[n]];
      assert RunIds(groups) == RunIds(groups[..n]) + {groups[n].runId};
      assert groups[n].runId !in RunIds(groups[..n]);
    }
  }

  lemma {:induction false} CleanupsCount(groups: seq<Group>)
    ensures |CleanupNonces(groups)| <= |groups|
  {
    if groups != [] {
      var n := |groups| - 1;
      CleanupsCount(groups[..n]);
      assert groups == groups[..n] + [groups[n]];
      assert CleanupNonces(groups) == CleanupNonces(groups[..n]) + {groups[n].cleanup.nonce};
    }
  }

  /** The session interval is the tight hull of the group intervals. */
  lemma SessionIsHull(s: Session)
    requires Accepted(s)
    ensures forall g :: g in s.groups ==> s.started <= g.started && g.ended <= s.ended
    ensures exists g :: g in s.groups && g.started == s.started
    ensures exists g :: g in s.groups && g.ended == s.ended
  {
    forall g | g in s.groups ensures g.ended <= s.ended {
      assert GroupFits(s, g);
      var m :| m in s.mutations && StopsGroup(m, g);
      assert m.nonce in CleanupNonces(s.groups);
    }
    var first := FirstGroup(s);
    assert first.started == s.started;
    var g := LastGroup(s);
    assert g.ended == s.ended;
  }

  lemma FirstGroup(s: Session) returns (first: Group)
    requires Accepted(s)
    ensures first in s.groups && first.started == s.started
  {
    hide MutationValid, GroupsApart, CleanupValid, PortsValid;
    assert s.mutations[0].nonce in Nonces(s.mutations, Start);
    first :| first in s.groups && first.runId == s.id;
    assert GroupFits(s, first);
    SameNonceIsSame(s.mutations, first.startEvidence, s.mutations[0]);
  }

  lemma LastGroup(s: Session) returns (g: Group)
    requires Accepted(s)
    ensures g in s.groups && g.ended == s.ended
  {
    hide MutationValid, GroupsApart, CleanupValid, PortsValid;
    var last :| last in s.mutations && last.nonce in CleanupNonces(s.groups) && last.completed == s.ended;
    g :| g in s.groups && g.cleanup.nonce == last.nonce;
    assert GroupFits(s, g);
    var m :| m in s.mutations && StopsGroup(m, g);
    SameNonceIsSame(s.mutations, m, last);
  }

  /** Ports belong to one group each, and the stop of a group covers all of its ports. */
  lemma PortsHaveOneGroupAndOneStop(s: Session, i: nat, k: nat, p: Port)
    requires Accepted(s) && i < |s.groups| && k < |s.groups| && p in s.groups[i].ports
    ensures p in s.groups[k].ports ==> i == k
    ensures forall m :: m in s.mutations && m.nonce == s.groups[i].cleanup.nonce ==> m.operation.Stop? && p in m.ports
    ensures exists m :: m in s.mutations && m.nonce == s.groups[i].cleanup.nonce
  {
    var g := s.groups[i];
    assert GroupFits(s, g);
    if i < k { assert Apart(g, s.groups[k]); }
    if k < i { assert Apart(s.groups[k], g); }
    var stop :| stop in s.mutations && StopsGroup(stop, g);
    forall m | m in s.mutations && m.nonce == g.cleanup.nonce ensures m.operation.Stop? && p in m.ports {
      SameNonceIsSame(s.mutations, m, stop);
      assert p in Members(stop.ports);
    }
  }

  /** The start of a group aimed at running ports, its stop at exactly the states the cleanup found, and there the group
      still is. */
  lemma StatesAreReached(s: Session, g: Group, p: Port)
    requires Accepted(s) && g in s.groups && p in g.ports
    ensures p in g.startEvidence.desired && g.startEvidence.desired[p] == Running
    ensures p in g.cleanup.finalStates && p in g.states && g.states[p] == g.cleanup.finalStates[p] == Stopped
    ensures forall m :: m in s.mutations && m.nonce == g.cleanup.nonce ==>
              p in m.desired && m.desired[p] == g.cleanup.finalStates[p]
  {
    assert GroupFits(s, g);
    var stop :| stop in s.mutations && StopsGroup(stop, g);
    assert MutationValid(g.startEvidence);
    forall m | m in s.mutations && m.nonce == g.cleanup.nonce ensures p in m.desired && m.desired[p] == Stopped {
      SameNonceIsSame(s.mutations, m, stop);
      assert MutationValid(m) && p in Members(m.ports);
    }
  }

  // ---- the validator ----

  method HasRepeats<T(==)>(xs: seq<T>) returns (repeats: bool)
    ensures repeats <==> !Unique(xs)
  {
    var seen: set<T> := {};
    var index := 0;
    while index < |xs|
      invariant 0 <= index <= |xs|
      invariant seen == Members(xs[..index])
      invariant Unique(xs[..index])
    {
      if xs[index] in seen {
        var i :| 0 <= i < index && xs[..index][i] == xs[index];
        assert xs[i] == xs[index];
        return true;
      }
      assert xs[..index + 1] == xs[..index] + [xs[index]];
      seen := seen + {xs[index]};
      index := index + 1;
    }
    assert xs[..|xs|] == xs;
    return false;
  }

  /** validate_mutation_evidence. */
  method ValidateMutation(m: Mutation) returns (ok: bool)
    ensures ok <==> MutationValid(m)
  {
    if m.mode.HardStop? || m.ports == [] { return false; }
    var repeats := HasRepeats(m.ports);
    if repeats { return false; }
    var targets := Members(m.ports);
    if !(targets <= m.baseline.Keys) || Unknown in m.baseline.Values || m.desired.Keys != targets { return false; }
    var expected := match m.operation
                    case Start => R.Some(Running)
                    case Stop => R.Some(Stopped)
                    case Pause => R.Some(Paused)
                    case Resume => R.Some(Running)
                    case Update => R.None;
    if expected.Some? && exists p :: p in m.ports && m.desired[p] != expected.value {
      assert !MutationValid(m);
      return false;
    }
    if m.operation.Update? && exists p :: p in m.ports && m.desired[p] != m.baseline[p] { return false; }
    repeats := HasRepeats(m.acquired);
    return !repeats && Members(m.acquired) <= targets && m.prepared <= m.completed && m.acquisitionRestored && m.walCleared;
  }

  /** The dictionary from nonce to mutation. */
  predicate Indexes(byNonce: map<Uuid, Mutation>, ms: seq<Mutation>) {
    && (forall n :: n in byNonce ==> byNonce[n] in ms && byNonce[n].nonce == n)
    && (forall m :: m in ms ==> m.nonce in byNonce && byNonce[m.nonce] == m)
  }

  /** The first loop: every mutation valid, every nonce new. */
  method CollectMutations(ms: seq<Mutation>) returns (ok: bool, byNonce: map<Uuid, Mutation>)
    ensures ok <==> NoncesUnique(ms) && forall m :: m in ms ==> MutationValid(m)
    ensures ok ==> Indexes(byNonce, ms)
  {
    hide MutationValid;
    byNonce := map[];
    var index := 0;
    while index < |ms|
      invariant 0 <= index <= |ms|
      invariant NoncesUnique(ms[..index]) && Indexes(byNonce, ms[..index])
      invariant forall i :: 0 <= i < index ==> MutationValid(ms[i])
    {
      var m := ms[index];
      var valid := ValidateMutation(m);
      if !valid { return false, byNonce; }
      if m.nonce in byNonce {
        var i :| 0 <= i < index && ms[..index][i] == byNonce[m.nonce];
        assert ms[i].nonce == ms[index].nonce;
        return false, byNonce;
      }
      assert ms[..index + 1] == ms[..index] + [m];
      byNonce := byNonce[m.nonce := m];
      index := index + 1;
    }
    assert ms[..|ms|] == ms;
    ok := true;
  }

  /** The checks of the group loop that involve only this group. */
  method CheckGroup(s: Session, g: Group, byNonce: map<Uuid, Mutation>) returns (ok: bool)
    requires Indexes(byNonce, s.mutations)
    ensures ok <==> GroupFits(s, g)
  {
    var repeats := HasRepeats(g.ports);
    if g.ports == [] || repeats || !g.leaseCleared || !g.stopped || g.states != AllIn(g.ports, Stopped) { return false; }
    if !(s.started <= g.started <= g.ended <= g.updated <= s.updated) { return false; }
    if g.runId !in byNonce || byNonce[g.runId] != g.startEvidence || !g.startEvidence.operation.Start?
       || g.startEvidence.ports != g.ports || g.startEvidence.completed != g.started { return false; }
    if !g.cleanup.operatorStop || g.cleanup.finalStates != AllIn(g.ports, Stopped)
       || !g.cleanup.acquisitionRestored || !g.cleanup.walCleared { return false; }
    if g.cleanup.nonce !in byNonce { return false; }
    var stop := byNonce[g.cleanup.nonce];
    if !stop.operation.Stop? { return false; }
    if exists p :: p in g.ports && p !in stop.ports {
      ghost var p :| p in g.ports && p !in stop.ports;
      assert p in Members(g.ports) && p !in Members(stop.ports);
      return false;
    }
    return stop.completed == g.cleanup.completed && g.ended == stop.completed;
  }

  /** What the loop variables say about the groups already seen. */
  predicate Seen(groups: seq<Group>, runIds: set<Uuid>, planIds: set<string>, ports: set<Port>, cleanups: set<Uuid>) {
    && runIds == RunIds(groups) && cleanups == CleanupNonces(groups)
    && planIds == (set g | g in groups && g.planId.Some? :: g.planId.value)
    && ports == (set g, p | g in groups && p in g.ports :: p)
  }

  /** The group loop. */
  method CollectGroups(s: Session, byNonce: map<Uuid, Mutation>) returns (ok: bool, runIds: set<Uuid>, cleanups: set<Uuid>)
    requires Indexes(byNonce, s.mutations)
    ensures ok <==> GroupsApart(s.groups) && forall g :: g in s.groups ==> GroupFits(s, g)
    ensures ok ==> runIds == RunIds(s.groups) && cleanups == CleanupNonces(s.groups)
  {
    hide GroupFits, Apart, Indexes, Seen;
    runIds, cleanups := {}, {};
    var planIds: set<string>, ports: set<Port> := {}, {};
    NothingSeen();
    var index := 0;
    assert s.groups[..0] == [];
    while index < |s.groups|
      invariant 0 <= index <= |s.groups|
      invariant Seen(s.groups[..index], runIds, planIds, ports, cleanups)
      invariant GroupsApart(s.groups[..index])
      invariant forall i :: 0 <= i < index ==> GroupFits(s, s.groups[i])
    {
      var g := s.groups[index];
      var fits := CheckGroup(s, g, byNonce);
      if !fits { return false, runIds, cleanups; }
      if g.runId in runIds || (g.planId.Some? && g.planId.value in planIds) || ports * Members(g.ports) != {} {
        ClashIsRejected(s.groups, index, runIds, planIds, ports, cleanups);
        return false, runIds, cleanups;
      }
      NewIsApart(s.groups[..index], g, runIds, planIds, ports, cleanups);
      assert s.groups[..index + 1] == s.groups[..index] + [g];
      runIds := runIds + {g.runId};
      planIds := planIds + (if g.planId.Some? then {g.planId.value} else {});
      ports := ports + Members(g.ports);
      cleanups := cleanups + {g.cleanup.nonce};
      index := index + 1;
    }
    assert s.groups[..|s.groups|] == s.groups;
    SeenAll(s.groups, runIds, planIds, ports, cleanups);
    ok := true;
  }

  lemma NothingSeen()
    ensures Seen([], {}, {}, {}, {})
  {
  }

  lemma SeenAll(groups: seq<Group>, runIds: set<Uuid>, planIds: set<string>, ports: set<Port>, cleanups: set<Uuid>)
    requires Seen(groups, runIds, planIds, ports, cleanups)
    ensures runIds == RunIds(groups) && cleanups == CleanupNonces(groups)
  {
  }

  lemma ClashIsRejected(groups: seq<Group>, at: nat, runIds: set<Uuid>, planIds: set<string>, ports: set<Port>, cleanups: set<Uuid>)
    requires at < |groups| && Seen(groups[..at], runIds, planIds, ports, cleanups)
    requires var g := groups[at];
             g.runId in runIds || (g.planId.Some? && g.planId.value in planIds) || ports * Members(g.ports) != {}
    ensures !GroupsApart(groups)
  {
  }

  lemma NewIsApart(groups: seq<Group>, g: Group, runIds: set<Uuid>, planIds: set<string>, ports: set<Port>, cleanups: set<Uuid>)
    requires GroupsApart(groups) && Seen(groups, runIds, planIds, ports, cleanups)
    requires g.runId !in runIds && (g.planId.Some? ==> g.planId.value !in planIds) && ports * Members(g.ports) == {}
    ensures GroupsApart(groups + [g])
    ensures Seen(groups + [g], runIds + {g.runId}, planIds + (if g.planId.Some? then {g.planId.value} else {}),
                 ports + Members(g.ports), cleanups + {g.cleanup.nonce})
  {
    var more := groups + [g];
    forall i | 0 <= i < |groups| ensures Apart(groups[i], g) {
      var a := groups[i];
      assert a.runId in runIds && (a.planId.Some? ==> a.planId.value in planIds);
      forall p | p in a.ports ensures p !in g.ports {
        assert p in ports;
        assert p !in ports * Members(g.ports);
      }
    }
    assert forall x :: x in more <==> x in groups || x == g;
  }

  /** validate_canonical_session accepts exactly the sessions of the declarative specification. */
  method ValidateCanonicalSession(s: Session) returns (ok: bool)
    ensures ok <==> Accepted(s)
  {
    hide GroupFits, MutationValid, GroupsApart, NoncesUnique;
    if !s.stopped || s.started > s.ended || s.ended > s.updated || s.mutations == [] { return false; }
    var byNonce;
    ok, byNonce := CollectMutations(s.mutations);
    if !ok { return; }
    var first := s.mutations[0];
    if !first.operation.Start? || first.nonce != s.id || first.completed != s.started { return false; }
    if exists m :: m in s.mutations && !m.operation.Start? && !m.operation.Stop? { return false; }
    if s.groups == [] { return false; }
    var runIds, cleanups;
    ok, runIds, cleanups := CollectGroups(s, byNonce);
    if !ok { return; }
    if Nonces(s.mutations, Start) != runIds || Nonces(s.mutations, Stop) != cleanups { return false; }
    ok := LatestCompletion(s.mutations, cleanups, s.ended);
  }
}
