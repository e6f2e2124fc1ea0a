/** The Python dependency inventory of the bill of materials: which extras of the locked packages are active and
    which packages depend on which, as the least solution of the packages' own requirements. */
module Sbom {
  import R = ReleaseTypes

  // A canonical package name.
  type Key = string
  type Extra = string
  type Ref = string

  /** A locked version and whether it parses. */
  datatype Version = Version(text: string, valid: bool)

  type Lock = map<Key, Version>

  /** A requirement: specifier and marker are arbitrary predicates, None when absent. */
  datatype Requirement = Requirement(
    target: Key,
    extras: set<Extra>,
    specifier: R.Option<Version -> bool>,
    marker: R.Option<Extra -> bool>
  )

  /** One Requires-Dist line. */
  datatype Line = Unparseable | Parsed(requirement: Requirement)

  /** Everything the computation reads; every locked package has its Requires-Dist lines. */
  datatype Input = Input(lock: Lock, lines: map<Key, seq<Line>>, direct: seq<Requirement>)

  predicate InputValid(x: Input) {
    x.lines.Keys == x.lock.Keys
  }

  type ActiveExtras = set<(Key, Extra)>
  type Edges = set<(Key, Key)>

  /** The lock has the target, in a version the specifier takes. */
  predicate Satisfied(lock: Lock, r: Requirement) {
    r.target in lock && (r.specifier.Some? ==> lock[r.target].valid && r.specifier.value(lock[r.target]))
  }

  /** The requirement holds without any extra, or with an active one. */
  predicate Applies(r: Requirement, key: Key, extras: ActiveExtras) {
    r.marker.None? || r.marker.value("") || exists p :: p in extras && p.0 == key && r.marker.value(p.1)
  }

  // ---- what a solution is ----

  /** The extras a requirement asks of its target. */
  function Wanted(r: Requirement): ActiveExtras {
    set e | e in r.extras :: (r.target, e)
  }

  /** The line is honoured: where it applies and the lock has its target, edge and extras are there. */
  predicate Honoured(x: Input, key: Key, line: Line, extras: ActiveExtras, edges: Edges) {
    line.Parsed? && Applies(line.requirement, key, extras) && Satisfied(x.lock, line.requirement) ==>
      (key, line.requirement.target) in edges && Wanted(line.requirement) <= extras
  }

  predicate Solves(x: Input, extras: ActiveExtras, edges: Edges)
    requires InputValid(x)
  {
    && (forall i :: 0 <= i < |x.direct| && Satisfied(x.lock, x.direct[i]) ==> Wanted(x.direct[i]) <= extras)
    && (forall key, i :: key in x.lock && 0 <= i < |x.lines[key]| ==> Honoured(x, key, x.lines[key][i], extras, edges))
  }

  /** The line does not raise: it parses and, where it applies, the lock satisfies it. */
  predicate Passes(x: Input, key: Key, line: Line, extras: ActiveExtras) {
    line.Parsed? && (Applies(line.requirement, key, extras) ==> Satisfied(x.lock, line.requirement))
  }

  predicate Clean(x: Input, extras: ActiveExtras)
    requires InputValid(x)
  {
    && (forall i :: 0 <= i < |x.direct| ==> Satisfied(x.lock, x.direct[i]))
    && (forall key, i :: key in x.lock && 0 <= i < |x.lines[key]| ==> Passes(x, key, x.lines[key][i], extras))
  }

  /** Contained in every solution. */
  ghost predicate Below(x: Input, extras: ActiveExtras, edges: Edges)
    requires InputValid(x)
  {
    forall e: ActiveExtras, d: Edges :: Solves(x, e, d) ==> extras <= e && edges <= d
  }

  /** More extras can only make more requirements apply. */
  lemma AppliesIsMonotone(r: Requirement, key: Key, small: ActiveExtras, big: ActiveExtras)
    requires small <= big && Applies(r, key, small)
    ensures Applies(r, key, big)
  {
  }

  /** The least solution is unique, so the result cannot depend on the order of the packages. */
  lemma LeastIsUnique(x: Input, e1: ActiveExtras, d1: Edges, e2: ActiveExtras, d2: Edges)
    requires InputValid(x)
    requires Solves(x, e1, d1) && Below(x, e1, d1) && Solves(x, e2, d2) && Below(x, e2, d2)
    ensures e1 == e2 && d1 == d2
  {
  }

  // ---- what decides a solution ----

  /** The requirement `r` is in force for the package `key`: without a marker, or where its marker holds with no extra or
      with an extra active on the package.  With its target locked it then is an edge, and asks for its extras. */
  ghost predicate Asks(x: Input, key: Key, extras: ActiveExtras, r: Requirement)
    requires InputValid(x)
  {
    && key in x.lock && Parsed(r) in x.lines[key] && Satisfied(x.lock, r)
    && (r.marker.None? || exists context :: (context == "" || (key, context) in extras) && r.marker.value(context))
  }

  /** The least solution has exactly the edges and extras that requirements in force ask for. */
  lemma LeastIsJustified(x: Input, extras: ActiveExtras, edges: Edges)
    requires InputValid(x) && Solves(x, extras, edges) && Below(x, extras, edges)
    ensures forall key, target :: (key, target) in edges <==> exists r :: Asks(x, key, extras, r) && r.target == target
    ensures forall target, e :: (target, e) in extras <==>
              || (exists i :: 0 <= i < |x.direct| && Satisfied(x.lock, x.direct[i]) && x.direct[i].target == target
                              && e in x.direct[i].extras)
              || (exists key, r :: Asks(x, key, extras, r) && r.target == target && e in r.extras)
  {
    forall key, target | (key, target) in edges ensures exists r :: Asks(x, key, extras, r) && r.target == target {
      EdgeIsAsked(x, extras, edges, key, target);
    }
    forall key, r | Asks(x, key, extras, r) ensures (key, r.target) in edges && Wanted(r) <= extras {
      AskedIsHonoured(x, extras, edges, key, r);
    }
    forall target, e | (target, e) in extras
      ensures || (exists i :: 0 <= i < |x.direct| && Satisfied(x.lock, x.direct[i]) && x.direct[i].target == target
                              && e in x.direct[i].extras)
              || (exists key, r :: Asks(x, key, extras, r) && r.target == target && e in r.extras)
    {
      ExtraIsAsked(x, extras, edges, target, e);
    }
    forall i, e | 0 <= i < |x.direct| && Satisfied(x.lock, x.direct[i]) && e in x.direct[i].extras
      ensures (x.direct[i].target, e) in extras
    {
      assert (x.direct[i].target, e) in Wanted(x.direct[i]);
    }
    forall key, r, e | Asks(x, key, extras, r) && e in r.extras ensures (r.target, e) in extras {
      assert (r.target, e) in Wanted(r);
    }
  }

  lemma AskedIsHonoured(x: Input, extras: ActiveExtras, edges: Edges, key: Key, r: Requirement)
    requires InputValid(x) && Solves(x, extras, edges) && Asks(x, key, extras, r)
    ensures (key, r.target) in edges && Wanted(r) <= extras
  {
    var i :| 0 <= i < |x.lines[key]| && x.lines[key][i] == Parsed(r);
    if r.marker.Some? {
      var context :| (context == "" || (key, context) in extras) && r.marker.value(context);
      assert context != "" ==> (key, context).0 == key && r.marker.value((key, context).1);
    }
    assert Honoured(x, key, x.lines[key][i], extras, edges);
  }

  lemma AppliedIsAsked(x: Input, key: Key, i: nat, small: ActiveExtras, extras: ActiveExtras)
    requires InputValid(x) && key in x.lock && i < |x.lines[key]| && x.lines[key][i].Parsed? && small <= extras
    requires Applies(x.lines[key][i].requirement, key, small) && Satisfied(x.lock, x.lines[key][i].requirement)
    ensures Asks(x, key, extras, x.lines[key][i].requirement)
  {
    var r := x.lines[key][i].requirement;
    if r.marker.Some? && !r.marker.value("") {
      var p :| p in small && p.0 == key && r.marker.value(p.1);
      assert p == (key, p.1);
    }
  }

  lemma EdgeIsAsked(x: Input, extras: ActiveExtras, edges: Edges, key: Key, target: Key)
    requires InputValid(x) && Solves(x, extras, edges) && Below(x, extras, edges) && (key, target) in edges
    ensures exists r :: Asks(x, key, extras, r) && r.target == target
  {
    if !exists r :: Asks(x, key, extras, r) && r.target == target {
      SolvesWithoutEdge(x, extras, edges, key, target);
    }
  }

  lemma SolvesWithoutEdge(x: Input, extras: ActiveExtras, edges: Edges, key: Key, target: Key)
    requires InputValid(x) && Solves(x, extras, edges) && !exists r :: Asks(x, key, extras, r) && r.target == target
    ensures Solves(x, extras, edges - {(key, target)})
  {
    forall k, i | k in x.lock && 0 <= i < |x.lines[k]|
      ensures Honoured(x, k, x.lines[k][i], extras, edges - {(key, target)})
    {
      var line := x.lines[k][i];
      assert Honoured(x, k, line, extras, edges);
      if line.Parsed? && Applies(line.requirement, k, extras) && Satisfied(x.lock, line.requirement) {
        AppliedIsAsked(x, k, i, extras, extras);
      }
    }
  }

  lemma ExtraIsAsked(x: Input, extras: ActiveExtras, edges: Edges, target: Key, e: Extra)
    requires InputValid(x) && Solves(x, extras, edges) && Below(x, extras, edges) && (target, e) in extras
    ensures || (exists i :: 0 <= i < |x.direct| && Satisfied(x.lock, x.direct[i]) && (target, e) in Wanted(x.direct[i]))
            || (exists key, r :: Asks(x, key, extras, r) && (target, e) in Wanted(r))
  {
    if !(exists i :: 0 <= i < |x.direct| && Satisfied(x.lock, x.direct[i]) && (target, e) in Wanted(x.direct[i]))
       && !(exists key, r :: Asks(x, key, extras, r) && (target, e) in Wanted(r)) {
      SolvesWithoutExtra(x, extras, edges, target, e);
    }
  }

  lemma SolvesWithoutExtra(x: Input, extras: ActiveExtras, edges: Edges, target: Key, e: Extra)
    requires InputValid(x) && Solves(x, extras, edges)
    requires !exists i :: 0 <= i < |x.direct| && Satisfied(x.lock, x.direct[i]) && (target, e) in Wanted(x.direct[i])
    requires !exists key, r :: Asks(x, key, extras, r) && (target, e) in Wanted(r)
    ensures Solves(x, extras - {(target, e)}, edges)
  {
    var fewer := extras - {(target, e)};
    forall k, i | k in x.lock && 0 <= i < |x.lines[k]| ensures Honoured(x, k, x.lines[k][i], fewer, edges) {
      var line := x.lines[k][i];
      assert Honoured(x, k, line, extras, edges);
      if line.Parsed? && Applies(line.requirement, k, fewer) && Satisfied(x.lock, line.requirement) {
        AppliesIsMonotone(line.requirement, k, fewer, extras);
        AppliedIsAsked(x, k, i, fewer, extras);
      }
    }
  }

  /** The same input with one requirement line replaced by others. */
  function Rewritten(x: Input, key: Key, i: nat, others: seq<Line>): Input
    requires InputValid(x) && key in x.lock && i < |x.lines[key]|
  {
    x.(lines := x.lines[key := x.lines[key][..i] + others + x.lines[key][i + 1..]])
  }

  /** A marker that holds without any extra might as well not be there: neither what raises nor what is found changes. */
  lemma BareMarkerIsNone(x: Input, key: Key, i: nat, extras: ActiveExtras, edges: Edges)
    requires InputValid(x) && key in x.lock && i < |x.lines[key]| && x.lines[key][i].Parsed?
    requires var r := x.lines[key][i].requirement; r.marker.Some? && r.marker.value("")
    ensures var y := Rewritten(x, key, i, [Parsed(x.lines[key][i].requirement.(marker := R.None))]);
            && InputValid(y) && (Solves(y, extras, edges) <==> Solves(x, extras, edges)) && (Clean(y, extras) <==> Clean(x, extras))
  {
    var y := Rewritten(x, key, i, [Parsed(x.lines[key][i].requirement.(marker := R.None))]);
    assert y.lock == x.lock && y.direct == x.direct;
    assert forall k :: k in x.lock && k != key ==> y.lines[k] == x.lines[k];
    assert |y.lines[key]| == |x.lines[key]|;
    forall n | 0 <= n < |x.lines[key]|
      ensures Honoured(y, key, y.lines[key][n], extras, edges) <==> Honoured(x, key, x.lines[key][n], extras, edges)
      ensures Passes(y, key, y.lines[key][n], extras) <==> Passes(x, key, x.lines[key][n], extras)
    {
    }
  }

  /** A parsed line whose marker holds in no context might as well not be there. */
  lemma DeadMarkerIsNothing(x: Input, key: Key, i: nat, extras: ActiveExtras, edges: Edges)
    requires InputValid(x) && key in x.lock && i < |x.lines[key]| && x.lines[key][i].Parsed?
    requires var r := x.lines[key][i].requirement; r.marker.Some? && forall context :: !r.marker.value(context)
    ensures var y := Rewritten(x, key, i, []);
            && InputValid(y) && (Solves(y, extras, edges) <==> Solves(x, extras, edges)) && (Clean(y, extras) <==> Clean(x, extras))
  {
    var y := Rewritten(x, key, i, []);
    assert forall k :: k in x.lock && k != key ==> y.lines[k] == x.lines[k];
    forall n | 0 <= n < |y.lines[key]|
      ensures y.lines[key][n] == x.lines[key][if n < i then n else n + 1]
    {
    }
    forall n | 0 <= n < |x.lines[key]| && n != i
      ensures x.lines[key][n] == y.lines[key][if n < i then n else n - 1]
    {
    }
  }

  // ---- termination ----

  ghost function Mentioned(x: Input): set<Extra> {
    (set i, e | 0 <= i < |x.direct| && e in x.direct[i].extras :: e)
    + (set key, i, e | key in x.lines && 0 <= i < |x.lines[key]| && x.lines[key][i].Parsed?
                       && e in x.lines[key][i].requirement.extras :: e)
  }

  ghost function AllExtras(x: Input): ActiveExtras {
    set key, e | key in x.lock && e in Mentioned(x) :: (key, e)
  }

  ghost function AllEdges(x: Input): Edges {
    set key, target | key in x.lock && target in x.lock :: (key, target)
  }

  ghost function Missing(x: Input, extras: ActiveExtras, edges: Edges): nat {
    |AllExtras(x) - extras| + |AllEdges(x) - edges|
  }

  lemma GrowthShrinksMissing(x: Input, e1: ActiveExtras, d1: Edges, e2: ActiveExtras, d2: Edges)
    requires e1 <= e2 <= AllExtras(x) && d1 <= d2 <= AllEdges(x)
    ensures Missing(x, e2, d2) <= Missing(x, e1, d1)
    ensures e1 != e2 || d1 != d2 ==> Missing(x, e2, d2) < Missing(x, e1, d1)
  {
    var all, each := AllExtras(x), AllEdges(x);
    SmallerRest(all, e1, e2);
    SmallerRest(each, d1, d2);
  }

  lemma SmallerRest<T>(all: set<T>, small: set<T>, big: set<T>)
    requires small <= big <= all
    ensures |all - big| <= |all - small|
    ensures small != big ==> |all - big| < |all - small|
  {
    assert all - small == (all - big) + (big - small);
    assert (all - big) !! (big - small);
    if small != big {
      assert exists t :: t in big - small;
    }
  }

  // ---- the fixpoint ----

  /** locked_requirement_target, which raises unless ok. */
  method LockedRequirementTarget(lock: Lock, r: Requirement) returns (ok: bool)
    ensures ok <==> Satisfied(lock, r)
  {
    if r.target !in lock { return false; }
    var version := lock[r.target];
    if r.specifier.Some? {
      if !version.valid { return false; }
      return r.specifier.value(version);
    }
    return true;
  }

  /** requirement_marker_applies: the marker is evaluated for no extra and for each active one. */
  method RequirementMarkerApplies(r: Requirement, key: Key, extras: ActiveExtras) returns (applies: bool)
    ensures applies <==> Applies(r, key, extras)
  {
    if r.marker.None? { return true; }
    var active := set p | p in extras && p.0 == key :: p.1;
    var todo := {""} + active;
    while todo != {}
      invariant todo <= {""} + active
      invariant forall extra :: extra in {""} + active && extra !in todo ==> !r.marker.value(extra)
    {
      var extra :| extra in todo;
      if r.marker.value(extra) {
        assert extra in active ==> (key, extra) in extras && (key, extra).0 == key && (key, extra).1 == extra;
        return true;
      }
      todo := todo - {extra};
    }
    forall p | p in extras && p.0 == key ensures !r.marker.value(p.1) { assert p.1 in active; }
    assert "" in {""} + active;
    return false;
  }

  /** The direct requirements of the application. */
  method DirectExtras(x: Input) returns (ok: bool, extras: ActiveExtras)
    requires InputValid(x)
    ensures ok <==> forall i :: 0 <= i < |x.direct| ==> Satisfied(x.lock, x.direct[i])
    ensures ok ==> Below(x, extras, {}) && extras <= AllExtras(x)
    ensures ok ==> forall i :: 0 <= i < |x.direct| ==> Wanted(x.direct[i]) <= extras
  {
    extras := {};
    var index := 0;
    while index < |x.direct|
      invariant 0 <= index <= |x.direct|
      invariant forall i :: 0 <= i < index ==> Satisfied(x.lock, x.direct[i]) && Wanted(x.direct[i]) <= extras
      invariant Below(x, extras, {}) && extras <= AllExtras(x)
    {
      ok := LockedRequirementTarget(x.lock, x.direct[index]);
      if !ok { return false, extras; }
      extras := extras + Wanted(x.direct[index]);
      index := index + 1;
    }
    ok := true;
  }

  /** One requirement line of one package. */
  method Visit(x: Input, key: Key, index: nat, extras: ActiveExtras, edges: Edges)
      returns (ok: bool, extras': ActiveExtras, edges': Edges)
    requires InputValid(x) && key in x.lock && index < |x.lines[key]|
    requires Below(x, extras, edges) && extras <= AllExtras(x) && edges <= AllEdges(x)
    ensures ok <==> Passes(x, key, x.lines[key][index], extras)
    ensures ok ==> Honoured(x, key, x.lines[key][index], extras', edges') || (extras', edges') != (extras, edges)
    ensures ok ==> extras <= extras' <= AllExtras(x) && edges <= edges' <= AllEdges(x)
    ensures ok ==> Below(x, extras', edges')
  {
    extras', edges' := extras, edges;
    var line := x.lines[key][index];
    if line.Unparseable? { return false, extras, edges; }
    var r := line.requirement;
    var applies := RequirementMarkerApplies(r, key, extras);
    if !applies { return true, extras, edges; }
    ok := LockedRequirementTarget(x.lock, r);
    if !ok { return; }
    edges' := edges + {(key, r.target)};
    extras' := extras + Wanted(r);
    forall e: ActiveExtras, d: Edges | Solves(x, e, d) ensures extras' <= e && edges' <= d {
      AppliesIsMonotone(r, key, extras, e);
      assert Honoured(x, key, line, e, d);
    }
    ok := true;
  }

  /** A line that does not pass below every solution passes in none. */
  lemma FailureIsFinal(x: Input, key: Key, index: nat, extras: ActiveExtras, edges: Edges)
    requires InputValid(x) && key in x.lock && index < |x.lines[key]|
    requires Below(x, extras, edges) && !Passes(x, key, x.lines[key][index], extras)
    ensures Unsolvable(x)
  {
  }

  /** No solution is free of requirements the lock cannot satisfy. */
  ghost predicate Unsolvable(x: Input)
    requires InputValid(x)
  {
    forall e: ActiveExtras, d: Edges :: Solves(x, e, d) ==> !Clean(x, e)
  }

  /** Every line of the package holds and passes. */
  predicate Settled(x: Input, key: Key, extras: ActiveExtras, edges: Edges)
    requires InputValid(x) && key in x.lock
  {
    forall i :: 0 <= i < |x.lines[key]| ==>
      Honoured(x, key, x.lines[key][i], extras, edges) && Passes(x, key, x.lines[key][i], extras)
  }

  /** All lines of one package. */
  method VisitPackage(x: Input, key: Key, extras: ActiveExtras, edges: Edges)
      returns (ok: bool, extras': ActiveExtras, edges': Edges)
    requires InputValid(x) && key in x.lock
    requires Below(x, extras, edges) && extras <= AllExtras(x) && edges <= AllEdges(x)
    ensures !ok ==> Unsolvable(x)
    ensures ok ==> extras <= extras' <= AllExtras(x) && edges <= edges' <= AllEdges(x) && Below(x, extras', edges')
    ensures ok && (extras', edges') == (extras, edges) ==> Settled(x, key, extras, edges)
  {
    hide Below, Honoured, Passes, AllExtras, AllEdges;
    extras', edges' := extras, edges;
    var index := 0;
    while index < |x.lines[key]|
      invariant 0 <= index <= |x.lines[key]|
      invariant extras <= extras' <= AllExtras(x) && edges <= edges' <= AllEdges(x) && Below(x, extras', edges')
      invariant (extras', edges') == (extras, edges) ==>
                  forall i :: 0 <= i < index ==> Honoured(x, key, x.lines[key][i], extras, edges)
                                                 && Passes(x, key, x.lines[key][i], extras)
    {
      ghost var before, below := extras', edges';
      ok, extras', edges' := Visit(x, key, index, extras', edges');
      if !ok {
        FailureIsFinal(x, key, index, before, below);
        return;
      }
      if (extras', edges') == (extras, edges) {
        assert before == extras && below == edges;
      }
      index := index + 1;
    }
    ok := true;
  }

  /** One pass over all packages; an unchanged pass has settled them all. */
  method Pass(x: Input, order: seq<Key>, extras: ActiveExtras, edges: Edges)
      returns (ok: bool, extras': ActiveExtras, edges': Edges, changed: bool)
    requires InputValid(x) && forall key :: key in order <==> key in x.lock
    requires Below(x, extras, edges) && extras <= AllExtras(x) && edges <= AllEdges(x)
    ensures !ok ==> Unsolvable(x)
    ensures ok ==> extras <= extras' <= AllExtras(x) && edges <= edges' <= AllEdges(x) && Below(x, extras', edges')
    ensures ok ==> (changed <==> extras' != extras || edges' != edges)
    ensures ok && !changed ==> forall key :: key in x.lock ==> Settled(x, key, extras', edges')
  {
    hide Below, Settled, AllExtras, AllEdges, Unsolvable;
    extras', edges', changed := extras, edges, false;
    var index := 0;
    while index < |order|
      invariant 0 <= index <= |order|
      invariant extras <= extras' <= AllExtras(x) && edges <= edges' <= AllEdges(x) && Below(x, extras', edges')
      invariant changed <==> extras' != extras || edges' != edges
      invariant !changed ==> forall i :: 0 <= i < index ==> Settled(x, order[i], extras, edges)
    {
      var before, below := extras', edges';
      ok, extras', edges' := VisitPackage(x, order[index], extras', edges');
      if !ok { return; }
      if extras' != before || edges' != below {
        assert extras' == extras ==> before == extras;
        assert edges' == edges ==> below == edges;
        changed := true;
      }
      index := index + 1;
    }
    ok := true;
  }

  /** The loop of python_inventory over extras and edges.  It ends for every input and every order of the packages;
      it raises exactly when no solution is free of requirements the lock cannot satisfy, and otherwise returns
      the least solution. */
  method ResolveDependencies(x: Input, order: seq<Key>) returns (ok: bool, extras: ActiveExtras, edges: Edges)
    requires InputValid(x) && forall key :: key in order <==> key in x.lock
    ensures ok <==> exists e: ActiveExtras, d: Edges :: Solves(x, e, d) && Clean(x, e)
    ensures ok ==> Solves(x, extras, edges) && Clean(x, extras) && Below(x, extras, edges) && edges <= AllEdges(x)
  {
    hide Below, Clean, Settled, AllExtras, AllEdges, Missing, Satisfied, Wanted;
    edges := {};
    ok, extras := DirectExtras(x);
    if !ok {
      DirectFailureIsFinal(x);
      return;
    }
    var changed := true;
    NoEdgesBelow(x);
    while changed
      invariant Below(x, extras, edges) && extras <= AllExtras(x) && edges <= AllEdges(x)
      invariant forall i :: 0 <= i < |x.direct| ==> Satisfied(x.lock, x.direct[i]) && Wanted(x.direct[i]) <= extras
      invariant !changed ==> forall key :: key in x.lock ==> Settled(x, key, extras, edges)
      decreases Missing(x, extras, edges), changed
    {
      ghost var before, below := extras, edges;
      ok, extras, edges, changed := Pass(x, order, extras, edges);
      if !ok { return; }
      GrowthShrinksMissing(x, before, below, extras, edges);
    }
    SettledSolves(x, extras, edges);
    ok := true;
  }

  lemma DirectFailureIsFinal(x: Input)
    requires InputValid(x) && exists i :: 0 <= i < |x.direct| && !Satisfied(x.lock, x.direct[i])
    ensures Unsolvable(x)
  {
  }

  lemma NoEdgesBelow(x: Input)
    ensures {} <= AllEdges(x)
  {
  }

  lemma SettledSolves(x: Input, extras: ActiveExtras, edges: Edges)
    requires InputValid(x) && forall key :: key in x.lock ==> Settled(x, key, extras, edges)
    requires forall i :: 0 <= i < |x.direct| ==> Satisfied(x.lock, x.direct[i]) && Wanted(x.direct[i]) <= extras
    ensures Solves(x, extras, edges) && Clean(x, extras)
  {
  }

  // ---- the dependency graph ----

  datatype Node = Node(ref: Ref, dependsOn: seq<Ref>)

  predicate NoRepeats(refs: seq<Ref>) {
    forall i, k :: 0 <= i < k < |refs| ==> refs[i] != refs[k]
  }

  function RefsOf(nodes: seq<Node>): seq<Ref> {
    seq(|nodes|, i requires 0 <= i < |nodes| => nodes[i].ref)
  }

  predicate NodeValid(n: Node, known: set<Ref>) {
    n.ref != "" && NoRepeats(n.dependsOn) && forall t :: t in n.dependsOn ==> t != "" && t in known
  }

  function Known(application: Ref, components: seq<Ref>): set<Ref> {
    {application} + set c | c in components
  }

  /** What validate_dependency_graph accepts. */
  predicate GraphValid(application: Ref, components: seq<Ref>, nodes: seq<Node>) {
    && "" !in components && NoRepeats(components) && application !in components
    && (forall n :: n in nodes ==> NodeValid(n, Known(application, components)))
    && NoRepeats(RefsOf(nodes))
    && (set r | r in RefsOf(nodes)) == Known(application, components)
  }

  /** len(refs) == len(set(refs)). */
  method HasRepeats(refs: seq<Ref>) returns (repeats: bool)
    ensures repeats <==> !NoRepeats(refs)
  {
    var seen: set<Ref> := {};
    var index := 0;
    while index < |refs|
      invariant 0 <= index <= |refs|
      invariant seen == set i | 0 <= i < index :: refs[i]
      invariant NoRepeats(refs[..index])
    {
      if refs[index] in seen { return true; }
      seen := seen + {refs[index]};
      index := index + 1;
    }
    assert refs[..|refs|] == refs;
    return false;
  }

  /** validate_dependency_graph. */
  method ValidateDependencyGraph(application: Ref, components: seq<Ref>, nodes: seq<Node>) returns (ok: bool)
    ensures ok <==> GraphValid(application, components, nodes)
  {
    var repeats := HasRepeats(components);
    if "" in components || repeats || application in components { return false; }
    var known := Known(application, components);
    var refs: seq<Ref> := [];
    var index := 0;
    while index < |nodes|
      invariant 0 <= index <= |nodes|
      invariant forall i :: 0 <= i < index ==> NodeValid(nodes[i], known)
      invariant refs == RefsOf(nodes[..index])
    {
      var n := nodes[index];
      repeats := HasRepeats(n.dependsOn);
      if n.ref == "" || "" in n.dependsOn || repeats || exists t :: t in n.dependsOn && t !in known {
        assert !NodeValid(n, known);
        return false;
      }
      refs := refs + [n.ref];
      index := index + 1;
    }
    assert nodes[..|nodes|] == nodes;
    repeats := HasRepeats(refs);
    return !repeats && (set r | r in refs) == known;
  }

  /** The members of a set, each once. */
  method Listed(refs: set<Ref>) returns (l: seq<Ref>)
    ensures NoRepeats(l) && forall r :: r in l <==> r in refs
  {
    l := [];
    var todo := refs;
    while todo != {}
      invariant todo <= refs && NoRepeats(l)
      invariant forall r :: r in l <==> r in refs && r !in todo
    {
      var r :| r in todo;
      l := l + [r];
      todo := todo - {r};
    }
  }

  /** Every locked package has its own non-empty reference. */
  predicate RefsFit(x: Input, refs: map<Key, Ref>) {
    && refs.Keys == x.lock.Keys
    && (forall key :: key in refs ==> refs[key] != "")
    && forall a, b :: a in refs && b in refs && a != b ==> refs[a] != refs[b]
  }

  ghost predicate ListsKeys(x: Input, order: seq<Key>) {
    && (forall key :: key in order <==> key in x.lock)
    && forall i, k :: 0 <= i < k < |order| ==> order[i] != order[k]
  }

  function Components(refs: map<Key, Ref>, order: seq<Key>): seq<Ref>
    requires forall key :: key in order ==> key in refs
  {
    seq(|order|, i requires 0 <= i < |order| => refs[order[i]])
  }

  /** The references a package's node lists. */
  function Targets(refs: map<Key, Ref>, edges: Edges, key: Key): set<Ref> {
    set e | e in edges && e.0 == key && e.1 in refs :: refs[e.1]
  }

  function Roots(x: Input, refs: map<Key, Ref>): set<Ref> {
    set i | 0 <= i < |x.direct| && x.direct[i].target in refs :: refs[x.direct[i].target]
  }

  /** One node for the application, listing the direct targets, and one per package, listing its edges. */
  ghost predicate Generated(x: Input, refs: map<Key, Ref>, order: seq<Key>, application: Ref, edges: Edges, nodes: seq<Node>)
    requires RefsFit(x, refs) && ListsKeys(x, order)
  {
    && |nodes| == |order| + 1 && nodes[0].ref == application
    && (forall t :: t in nodes[0].dependsOn <==> t in Roots(x, refs))
    && (forall i :: 0 <= i < |order| ==> nodes[i + 1].ref == refs[order[i]])
    && (forall i, t :: 0 <= i < |order| ==> (t in nodes[i + 1].dependsOn <==> t in Targets(refs, edges, order[i])))
    && (forall i :: 0 <= i < |nodes| ==> NoRepeats(nodes[i].dependsOn))
  }

  /** The graph of python_inventory: the application's node, then one node per package. */
  method DependencyGraph(x: Input, refs: map<Key, Ref>, order: seq<Key>, application: Ref, edges: Edges)
      returns (components: seq<Ref>, nodes: seq<Node>)
    requires InputValid(x) && RefsFit(x, refs) && ListsKeys(x, order)
    ensures components == Components(refs, order)
    ensures Generated(x, refs, order, application, edges, nodes)
  {
    components := Components(refs, order);
    var roots := Listed(Roots(x, refs));
    nodes := [Node(application, roots)];
    var index := 0;
    while index < |order|
      invariant 0 <= index <= |order| && |nodes| == index + 1
      invariant nodes[0] == Node(application, roots)
      invariant forall i :: 0 <= i < index ==> nodes[i + 1].ref == refs[order[i]]
      invariant forall i, t :: 0 <= i < index ==> (t in nodes[i + 1].dependsOn <==> t in Targets(refs, edges, order[i]))
      invariant forall i :: 0 <= i < |nodes| ==> NoRepeats(nodes[i].dependsOn)
    {
      var listed := Listed(Targets(refs, edges, order[index]));
      nodes := nodes + [Node(refs[order[index]], listed)];
      index := index + 1;
    }
  }

  /** The graph says what was resolved: a package's node lists a reference exactly if there is an edge to its package, the
      application's node exactly if the package is required directly. */
  lemma NodesAreEdges(x: Input, refs: map<Key, Ref>, order: seq<Key>, application: Ref, edges: Edges, nodes: seq<Node>,
                      i: nat, target: Key)
    requires InputValid(x) && RefsFit(x, refs) && ListsKeys(x, order)
    requires Generated(x, refs, order, application, edges, nodes) && i < |order| && target in x.lock
    ensures refs[target] in nodes[i + 1].dependsOn <==> (order[i], target) in edges
    ensures refs[target] in nodes[0].dependsOn <==> exists k :: 0 <= k < |x.direct| && x.direct[k].target == target
  {
    assert refs[target] in nodes[i + 1].dependsOn <==> refs[target] in Targets(refs, edges, order[i]);
    if (order[i], target) in edges {
      assert (order[i], target).0 == order[i] && (order[i], target).1 == target;
    }
  }

  /** A generated graph passes validation exactly when the application's reference is its own. */
  lemma GeneratedGraphIsValid(x: Input, refs: map<Key, Ref>, order: seq<Key>, application: Ref, edges: Edges, nodes: seq<Node>)
    requires InputValid(x) && RefsFit(x, refs) && ListsKeys(x, order)
    requires Generated(x, refs, order, application, edges, nodes)
    ensures GraphValid(application, Components(refs, order), nodes) <==> application != "" && application !in refs.Values
  {
    var components := Components(refs, order);
    var known := Known(application, components);
    ComponentsAreRefs(x, refs, order);
    assert application in components <==> application in refs.Values;
    assert forall i :: 0 <= i < |order| ==> RefsOf(nodes)[i + 1] == components[i];
    assert RefsOf(nodes)[0] == application;
    assert nodes[0] in nodes;
    if application != "" && application !in refs.Values {
      forall i | 0 <= i < |nodes| ensures NodeValid(nodes[i], known) {
        forall t | t in nodes[i].dependsOn ensures t != "" && t in known {
          var k := i - 1;
          if i > 0 { assert t in nodes[k + 1].dependsOn; }
          assert t in if i > 0 then Targets(refs, edges, order[k]) else Roots(x, refs);
          assert t in refs.Values;
        }
        if i > 0 { assert nodes[i].ref == components[i - 1]; }
      }
      forall i, k | 0 <= i < k < |nodes| ensures RefsOf(nodes)[i] != RefsOf(nodes)[k] {
        assert RefsOf(nodes)[k] == components[k - 1];
        if i > 0 { assert RefsOf(nodes)[i] == components[i - 1]; }
      }
      forall r ensures r in RefsOf(nodes) <==> r in known {
        if r in components {
          var i :| 0 <= i < |components| && components[i] == r;
          assert RefsOf(nodes)[i + 1] == r;
        }
        if r in RefsOf(nodes) {
          var i :| 0 <= i < |nodes| && RefsOf(nodes)[i] == r;
          if i > 0 { assert r == components[i - 1]; }
        }
      }
    }
  }

  lemma ComponentsAreRefs(x: Input, refs: map<Key, Ref>, order: seq<Key>)
    requires RefsFit(x, refs) && ListsKeys(x, order)
    ensures NoRepeats(Components(refs, order)) && "" !in Components(refs, order)
    ensures forall r :: r in Components(refs, order) <==> r in refs.Values
  {
    var components := Components(refs, order);
    forall r | r in refs.Values ensures r in components {
      var key :| key in refs && refs[key] == r;
      var i :| 0 <= i < |order| && order[i] == key;
      assert components[i] == r;
    }
  }

  // ---- the references of packages and application ----

  /** One byte of a UTF-8 text. */
  type Byte = b: int | 0 <= b < 256

  predicate Unreserved(b: Byte) {
    || 'a' as int <= b <= 'z' as int || 'A' as int <= b <= 'Z' as int || '0' as int <= b <= '9' as int
    || b == '_' as int || b == '.' as int || b == '-' as int || b == '~' as int
  }

  const HEX := "0123456789ABCDEF"

  /** urllib.parse.quote with no further safe character. */
  function Quote(text: seq<Byte>): string {
    if text == [] then ""
    else
      var b := text[0];
      (if Unreserved(b) then [b as char] else ['%', HEX[b / 16], HEX[b % 16]]) + Quote(text[1..])
  }

  function HexValue(c: char): int {
    if c <= '9' then c as int - '0' as int else c as int - 'A' as int + 10
  }

  function Unquote(s: string): seq<int> {
    if s == "" then []
    else if s[0] == '%' && |s| >= 3 then [16 * HexValue(s[1]) + HexValue(s[2])] + Unquote(s[3..])
    else [s[0] as int] + Unquote(s[1..])
  }

  /** Quoting loses nothing and leaves no separator. */
  lemma {:induction false} UnquoteQuote(text: seq<Byte>)
    ensures Unquote(Quote(text)) == text && '@' !in Quote(text) && ':' !in Quote(text)
  {
    if text != [] {
      var b, rest := text[0], text[1..];
      UnquoteQuote(rest);
      if Unreserved(b) {
        assert Quote(text)[1..] == Quote(rest);
      } else {
        HexDigits(b / 16);
        HexDigits(b % 16);
        assert Quote(text)[3..] == Quote(rest);
      }
    }
  }

  lemma HexDigits(n: nat)
    requires n < 16
    ensures HexValue(HEX[n]) == n && HEX[n] != '@' && HEX[n] != ':'
  {
  }

  /** Letters, digits and four marks stand for themselves; every other byte is written as three characters. */
  lemma PlainBytes(b: Byte)
    ensures var plain := 48 <= b <= 57 || 65 <= b <= 90 || 97 <= b <= 122 || b == 45 || b == 46 || b == 95 || b == 126;
            if plain then Quote([b]) == [b as char] else |Quote([b])| == 3 && Quote([b])[0] == '%'
  {
    assert [b][1..] == [];
    assert Quote([b]) == (if Unreserved(b) then [b as char] else ['%', HEX[b / 16], HEX[b % 16]]) + Quote([]);
  }

  /** A locked package: its name and version as written. */
  datatype Package = Package(name: seq<Byte>, version: seq<Byte>)

  function PackageRef(p: Package): Ref {
    "pkg:pypi/" + Quote(p.name) + "@" + Quote(p.version)
  }

  function PackageRefs(packages: map<Key, Package>): map<Key, Ref> {
    map key | key in packages :: PackageRef(packages[key])
  }

  /** application_bom_ref. */
  function ApplicationRef(kind: seq<Byte>, name: seq<Byte>, version: seq<Byte>): Ref {
    "application:" + Quote(kind) + ":" + Quote(name) + "@" + Quote(version)
  }

  lemma SplitAt(mark: char, a: string, b: string, c: string, d: string)
    requires mark !in a && mark !in c && a + [mark] + b == c + [mark] + d
    ensures a == c && b == d
  {
    var s := a + [mark] + b;
    assert s[|a|] == mark && s[|c|] == mark;
    assert forall i :: 0 <= i < |a| ==> s[i] != mark;
    assert forall i :: 0 <= i < |c| ==> s[i] != mark;
    assert s[..|a|] == a && s[..|c|] == c && s[|a| + 1..] == b && s[|c| + 1..] == d;
  }

  lemma WithoutPrefix(p: string, a: string, b: string, c: string)
    ensures (p + a + b + c)[|p|..] == a + b + c
  {
  }

  /** A reference determines the package: different names or versions never collide. */
  lemma PackageRefIsInjective(p: Package, q: Package)
    requires PackageRef(p) == PackageRef(q)
    ensures p == q
  {
    hide Quote, Unquote;
    UnquoteQuote(p.name);
    UnquoteQuote(q.name);
    UnquoteQuote(p.version);
    UnquoteQuote(q.version);
    WithoutPrefix("pkg:pypi/", Quote(p.name), "@", Quote(p.version));
    WithoutPrefix("pkg:pypi/", Quote(q.name), "@", Quote(q.version));
    SplitAt('@', Quote(p.name), Quote(p.version), Quote(q.name), Quote(q.version));
  }

  /** So does the application's, its kind, name and version. */
  lemma ApplicationRefIsInjective(k1: seq<Byte>, n1: seq<Byte>, v1: seq<Byte>, k2: seq<Byte>, n2: seq<Byte>, v2: seq<Byte>)
    requires ApplicationRef(k1, n1, v1) == ApplicationRef(k2, n2, v2)
    ensures k1 == k2 && n1 == n2 && v1 == v2
  {
    hide Quote, Unquote;
    var rest1, rest2 := Quote(n1) + "@" + Quote(v1), Quote(n2) + "@" + Quote(v2);
    QuotesApart(k1, k2);
    QuotesApart(n1, n2);
    QuotesApart(v1, v2);
    assert ApplicationRef(k1, n1, v1) == "application:" + (Quote(k1) + ":" + rest1);
    assert ApplicationRef(k2, n2, v2) == "application:" + (Quote(k2) + ":" + rest2);
    assert ApplicationRef(k1, n1, v1)[12..] == Quote(k1) + ":" + rest1;
    assert ApplicationRef(k2, n2, v2)[12..] == Quote(k2) + ":" + rest2;
    SplitAt(':', Quote(k1), rest1, Quote(k2), rest2);
    SplitAt('@', Quote(n1), Quote(v1), Quote(n2), Quote(v2));
  }

  lemma QuotesApart(a: seq<Byte>, b: seq<Byte>)
    ensures Quote(a) == Quote(b) ==> a == b
    ensures '@' !in Quote(a) && ':' !in Quote(a) && '@' !in Quote(b) && ':' !in Quote(b)
  {
    UnquoteQuote(a);
    UnquoteQuote(b);
  }

  /** locked_python_packages files each package under its canonical name, whatever that is. */
  ghost predicate Keyed(x: Input, packages: map<Key, Package>, canonical: seq<Byte> -> Key) {
    packages.Keys == x.lock.Keys && forall key :: key in packages ==> canonical(packages[key].name) == key
  }

  /** The graph of the Python inventory always passes validation. */
  lemma PythonGraphIsValid(x: Input, packages: map<Key, Package>, canonical: seq<Byte> -> Key, order: seq<Key>,
                           kind: seq<Byte>, name: seq<Byte>, version: seq<Byte>, edges: Edges, nodes: seq<Node>)
    requires InputValid(x) && Keyed(x, packages, canonical) && ListsKeys(x, order)
    ensures RefsFit(x, PackageRefs(packages))
    ensures Generated(x, PackageRefs(packages), order, ApplicationRef(kind, name, version), edges, nodes) ==>
              GraphValid(ApplicationRef(kind, name, version), Components(PackageRefs(packages), order), nodes)
  {
    hide Generated, GraphValid, Quote;
    var refs, application := PackageRefs(packages), ApplicationRef(kind, name, version);
    forall a, b | a in refs && b in refs && a != b ensures refs[a] != refs[b] {
      if refs[a] == refs[b] { PackageRefIsInjective(packages[a], packages[b]); }
    }
    forall key | key in refs ensures refs[key] != "" && refs[key][0] == 'p' {
    }
    assert application[0] == 'a';
    if Generated(x, refs, order, application, edges, nodes) {
      GeneratedGraphIsValid(x, refs, order, application, edges, nodes);
    }
  }
}
