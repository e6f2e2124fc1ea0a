/** Publication of the release infrastructure: ordered, resumable, with an activation barrier between the
    prerequisites and the consumer drop-ins that depend on them. */
module Bootstrap {
  import R = ReleaseTypes

  type Bytes = R.Bytes

  // Paths are numbered in the order of their text.
  type Path = nat

  const MAX_FILE_BYTES := 32 * 1024 * 1024
  const MAX_MANIFEST_BYTES := 256 * 1024
  const MANIFEST_MODE := 0x180 // octal 600

  datatype ActivationClass = Prerequisite | ConsumerDropin

  /** One command-line artifact: the bytes of its source, its target and its mode. */
  datatype Artifact = Artifact(class_: ActivationClass, target: Path, mode: nat, content: Bytes)

  /** A manifest record. */
  datatype Entry = Entry(class_: ActivationClass, mode: nat, sha: R.Sha256, size: nat, target: Path)

  /** A manifest is the JSON document of its records, `size` bytes long; any other file is raw bytes. */
  datatype Content = Raw(bytes: Bytes) | Document(records: seq<Entry>, size: nat)

  datatype File = File(content: Content, mode: nat)

  type Tree = map<Path, File>

  datatype Status = Done | Killed | Refused

  // ---- records ----

  function Describe(a: Artifact): Entry {
    Entry(a.class_, a.mode, R.Sha256(a.content), |a.content|, a.target)
  }

  function Installed(a: Artifact): File {
    File(Raw(a.content), a.mode)
  }

  predicate Exact(t: Tree, a: Artifact) {
    a.target in t && t[a.target] == Installed(a)
  }

  predicate DistinctTargets(order: seq<Artifact>) {
    forall i, k :: 0 <= i < k < |order| ==> order[i].target != order[k].target
  }

  predicate Targets(order: seq<Artifact>, p: Path) {
    exists a :: a in order && a.target == p
  }

  /** read_file of every source succeeds. */
  predicate Readable(order: seq<Artifact>) {
    forall a :: a in order ==> |a.content| <= MAX_FILE_BYTES
  }

  predicate ModesValid(order: seq<Artifact>) {
    forall a :: a in order ==> ModeValid(a.mode)
  }

  predicate ModeValid(mode: nat) {
    mode == 0x1a4 || mode == 0x1ed // octal 644 and 755
  }

  /** records.sort(key=target). */
  function Insert(e: Entry, records: seq<Entry>): seq<Entry> {
    if records == [] || e.target <= records[0].target then [e] + records
    else [records[0]] + Insert(e, records[1..])
  }

  function SortByTarget(records: seq<Entry>): seq<Entry> {
    if records == [] then [] else Insert(records[0], SortByTarget(records[1..]))
  }

  predicate Ascending(records: seq<Entry>) {
    forall i, k :: 0 <= i < k < |records| ==> records[i].target <= records[k].target
  }

  lemma {:induction false} InsertKeeps(e: Entry, records: seq<Entry>)
    ensures multiset(Insert(e, records)) == multiset(records) + multiset{e}
  {
    if records != [] && e.target > records[0].target {
      InsertKeeps(e, records[1..]);
      assert records == [records[0]] + records[1..];
    }
  }

  lemma LaterIsLarger(records: seq<Entry>, r: Entry)
    requires Ascending(records) && records != [] && r in multiset(records[1..])
    ensures records[0].target <= r.target
  {
    var i :| 0 <= i < |records| - 1 && records[1..][i] == r;
    assert records[i + 1] == r;
  }

  lemma {:induction false} InsertSorts(e: Entry, records: seq<Entry>)
    requires Ascending(records)
    ensures Ascending(Insert(e, records))
  {
    if records != [] && e.target > records[0].target {
      var tail := Insert(e, records[1..]);
      InsertSorts(e, records[1..]);
      InsertKeeps(e, records[1..]);
      forall r | r in tail ensures records[0].target <= r.target {
        assert r in multiset(tail);
        if r != e { LaterIsLarger(records, r); }
      }
      assert Insert(e, records) == [records[0]] + tail;
    }
  }

  lemma {:induction false} SortSorts(records: seq<Entry>)
    ensures Ascending(SortByTarget(records))
    ensures multiset(SortByTarget(records)) == multiset(records)
  {
    if records != [] {
      SortSorts(records[1..]);
      InsertSorts(records[0], SortByTarget(records[1..]));
      InsertKeeps(records[0], SortByTarget(records[1..]));
      assert records == [records[0]] + records[1..];
    }
  }

  /** A list is its own sorting exactly when it ascends. */
  lemma SortedIsFixed(records: seq<Entry>)
    ensures SortByTarget(records) == records <==> Ascending(records)
  {
    SortSorts(records);
    if Ascending(records) {
      AscendingIsFixed(records);
    }
  }

  lemma {:induction false} AscendingIsFixed(records: seq<Entry>)
    requires Ascending(records)
    ensures SortByTarget(records) == records
  {
    if records != [] {
      var rest := records[1..];
      AscendingIsFixed(rest);
      assert records == [records[0]] + rest;
      assert rest != [] ==> records[0].target <= rest[0].target;
    }
  }

  function Entries(order: seq<Artifact>): seq<Entry> {
    seq(|order|, i requires 0 <= i < |order| => Describe(order[i]))
  }

  /** The records of the manifest that publishes `order`. */
  function Manifest(order: seq<Artifact>): seq<Entry> {
    SortByTarget(Entries(order))
  }

  lemma ManifestMembers(order: seq<Artifact>, e: Entry)
    ensures e in Manifest(order) <==> exists a :: a in order && Describe(a) == e
  {
    SortSorts(Entries(order));
    assert e in Manifest(order) <==> e in multiset(Manifest(order));
    assert e in Entries(order) <==> e in multiset(Entries(order));
    if a :| a in order && Describe(a) == e {
      var i :| 0 <= i < |order| && order[i] == a;
      assert Entries(order)[i] == e;
    }
  }

  /** Distinct targets sort into strictly ascending records. */
  lemma ManifestAscendsStrictly(order: seq<Artifact>)
    requires DistinctTargets(order)
    ensures DistinctRecords(Manifest(order)) && Ascending(Manifest(order))
  {
    SortSorts(Entries(order));
    var records := Manifest(order);
    forall i, k | 0 <= i < k < |records| ensures records[i].target != records[k].target {
      if records[i].target == records[k].target {
        ManifestMembers(order, records[i]);
        ManifestMembers(order, records[k]);
        assert records[i] == records[k];
        TwiceIn(records, i, k);
        EntriesOnce(order, records[i]);
      }
    }
  }

  lemma TwiceIn(records: seq<Entry>, i: nat, k: nat)
    requires i < k < |records| && records[i] == records[k]
    ensures multiset(records)[records[i]] >= 2
  {
    assert records == records[..k] + [records[k]] + records[k + 1..];
    assert records[i] in records[..k];
  }

  lemma {:induction false} EntriesOnce(order: seq<Artifact>, e: Entry)
    requires DistinctTargets(order)
    ensures multiset(Entries(order))[e] <= 1
  {
    if order != [] {
      var n := |order| - 1;
      EntriesOnce(order[..n], e);
      assert Entries(order) == Entries(order[..n]) + [Describe(order[n])];
      if e == Describe(order[n]) {
        assert e !in Entries(order[..n]);
      }
    }
  }

  predicate DistinctRecords(records: seq<Entry>) {
    forall i, k :: 0 <= i < k < |records| ==> records[i].target != records[k].target
  }

  predicate RecordValid(e: Entry) {
    ModeValid(e.mode) && e.size <= MAX_FILE_BYTES
  }

  /** What validate_manifest_document accepts. */
  predicate DocumentValid(records: seq<Entry>) {
    && records != []
    && (forall e :: e in records ==> RecordValid(e))
    && DistinctRecords(records)
    && Ascending(records)
  }

  /** validate_manifest_document. */
  method ValidateManifestDocument(records: seq<Entry>) returns (ok: bool)
    ensures ok <==> DocumentValid(records)
  {
    if records == [] { return false; }
    var targets: set<Path> := {};
    var index := 0;
    while index < |records|
      invariant 0 <= index <= |records|
      invariant targets == set i | 0 <= i < index :: records[i].target
      invariant forall i :: 0 <= i < index ==> RecordValid(records[i])
      invariant DistinctRecords(records[..index])
    {
      var mode, size := records[index].mode, records[index].size;
      if (mode != 0x1a4 && mode != 0x1ed) || size > MAX_FILE_BYTES {
        assert !RecordValid(records[index]);
        return false;
      }
      if records[index].target in targets { return false; }
      targets := targets + {records[index].target};
      index := index + 1;
    }
    assert records[..|records|] == records;
    SortedIsFixed(records);
    return records == SortByTarget(records);
  }

  /** canonical_records: fails exactly on a duplicate target or an unreadable source. */
  method CanonicalRecords(prerequisites: seq<Artifact>, dropins: seq<Artifact>)
      returns (ok: bool, records: seq<Entry>, order: seq<Artifact>)
    ensures ok <==> DistinctTargets(prerequisites + dropins) && Readable(prerequisites + dropins)
    ensures ok ==> order == prerequisites + dropins && records == Manifest(order)
  {
    var all := prerequisites + dropins;
    var targets: set<Path> := {};
    records, order := [], [];
    var index := 0;
    while index < |all|
      invariant 0 <= index <= |all|
      invariant order == all[..index] && records == Entries(order)
      invariant targets == set i | 0 <= i < index :: all[i].target
      invariant DistinctTargets(order) && Readable(order)
    {
      var a := all[index];
      if a.target in targets || |a.content| > MAX_FILE_BYTES { return false, records, order; }
      targets := targets + {a.target};
      records := records + [Describe(a)];
      order := order + [a];
      index := index + 1;
    }
    assert all[..|all|] == all;
    records := SortByTarget(records);
    ok := true;
  }

  // ---- trees ----

  predicate Within(small: Tree, big: Tree) {
    forall p :: p in small ==> p in big && big[p] == small[p]
  }

  /** `t` is `base` plus files this publication puts there. */
  predicate Grown(base: Tree, t: Tree, order: seq<Artifact>, manifest: Path, document: File) {
    && Within(base, t)
    && forall p :: p in t ==>
         p in base || (p == manifest && t[p] == document) || (exists a :: a in order && a.target == p && t[p] == Installed(a))
  }

  predicate SameAt(a: Tree, b: Tree, p: Path) {
    (p in a <==> p in b) && (p in a ==> a[p] == b[p])
  }

  /** A tree a crash may leave: every path as it is visible or as it is durable. */
  ghost predicate Image(visible: Tree, durable: Tree, t: Tree) {
    forall p :: SameAt(t, visible, p) || SameAt(t, durable, p)
  }

  predicate HasConsumer(t: Tree, order: seq<Artifact>) {
    exists a :: a in order && a.class_.ConsumerDropin? && a.target in t
  }

  predicate HasPrerequisites(t: Tree, order: seq<Artifact>) {
    forall a :: a in order && a.class_.Prerequisite? ==> Exact(t, a)
  }

  predicate HasAll(t: Tree, order: seq<Artifact>) {
    forall a :: a in order ==> Exact(t, a)
  }

  /** No consumer drop-in is visible before every prerequisite is durable. */
  predicate Guarded(visible: Tree, durable: Tree, order: seq<Artifact>) {
    HasConsumer(visible, order) ==> HasPrerequisites(durable, order)
  }

  predicate Untouched(base: Tree, order: seq<Artifact>) {
    forall a :: a in order ==> a.target !in base
  }

  /** The checks of one run on the tree it finds. */
  predicate Acceptable(t: Tree, order: seq<Artifact>, manifest: Path, encoded: nat) {
    && DistinctTargets(order) && Readable(order)
    && if manifest in t then Established(t, order, manifest)
       else (forall a :: a in order && a.target in t ==> Exact(t, a)) && encoded <= MAX_MANIFEST_BYTES
  }

  predicate Established(t: Tree, order: seq<Artifact>, manifest: Path) {
    && manifest in t && t[manifest].mode == MANIFEST_MODE && t[manifest].content.Document?
    && t[manifest].content.size <= MAX_FILE_BYTES
    && DocumentValid(t[manifest].content.records)
    && t[manifest].content.records == Manifest(order)
    && HasAll(t, order)
  }

  lemma ImageKeepsGrown(base: Tree, visible: Tree, durable: Tree, t: Tree, order: seq<Artifact>, manifest: Path, document: File)
    requires Grown(base, visible, order, manifest, document) && Grown(base, durable, order, manifest, document)
    requires Image(visible, durable, t)
    ensures Grown(base, t, order, manifest, document)
  {
    forall p | p in base ensures p in t && t[p] == base[p] {
      assert SameAt(t, visible, p) || SameAt(t, durable, p);
    }
    forall p | p in t && p !in base
      ensures (p == manifest && t[p] == document) || exists a :: a in order && a.target == p && t[p] == Installed(a)
    {
      assert SameAt(t, visible, p) || SameAt(t, durable, p);
    }
  }

  /** The activation barrier: a crash image with any consumer drop-in has every prerequisite, exactly. */
  lemma BarrierHolds(visible: Tree, durable: Tree, t: Tree, order: seq<Artifact>)
    requires Guarded(visible, durable, order) && Within(durable, visible) && Image(visible, durable, t)
    ensures HasConsumer(t, order) ==> HasPrerequisites(t, order)
    ensures Guarded(t, t, order)
  {
    if HasConsumer(t, order) {
      var c :| c in order && c.class_.ConsumerDropin? && c.target in t;
      assert SameAt(t, visible, c.target) || SameAt(t, durable, c.target);
      assert HasConsumer(visible, order);
      forall a | a in order && a.class_.Prerequisite? ensures Exact(t, a) {
        assert SameAt(t, visible, a.target) || SameAt(t, durable, a.target);
      }
    }
  }

  lemma AddKeepsGrown(base: Tree, t: Tree, order: seq<Artifact>, manifest: Path, document: File, a: Artifact)
    requires Grown(base, t, order, manifest, document) && a in order && a.target !in base
    ensures Grown(base, t[a.target := Installed(a)], order, manifest, document)
  {
  }

  /** Publishing the next artifact keeps the barrier. */
  lemma AddKeepsGuard(v: Tree, d: Tree, v': Tree, d': Tree, order: seq<Artifact>, a: Artifact)
    requires Guarded(v, d, order) && Within(d, v) && DistinctTargets(order) && a in order && a.target !in v
    requires a.class_.ConsumerDropin? ==> HasPrerequisites(d, order)
    requires v' == v || v' == v[a.target := Installed(a)]
    requires d' == d || (d' == d[a.target := Installed(a)] && v' == v[a.target := Installed(a)])
    ensures Guarded(v', d', order) && Within(d', v') && Within(v, v') && Within(d, d')
  {
  }

  lemma AddManifestKeepsGrown(base: Tree, t: Tree, order: seq<Artifact>, manifest: Path, document: File)
    requires Grown(base, t, order, manifest, document) && manifest !in base
    ensures Grown(base, t[manifest := document], order, manifest, document)
  {
  }

  lemma AddManifestKeepsGuard(base: Tree, v: Tree, d: Tree, v': Tree, d': Tree, order: seq<Artifact>, manifest: Path, document: File)
    requires Grown(base, d, order, manifest, document) && manifest !in base && !Targets(order, manifest) && Within(d, v)
    requires v' == v || v' == v[manifest := document]
    requires d' == d || (d' == d[manifest := document] && v' == v[manifest := document])
    ensures Within(d', v') && (Guarded(v, d, order) ==> Guarded(v', d', order))
  {
  }

  /** Everything is in place; a manifest that is also a target replaces that artifact. */
  predicate Complete(t: Tree, order: seq<Artifact>, manifest: Path, document: File) {
    && manifest in t && t[manifest] == document
    && forall a :: a in order && a.target != manifest ==> Exact(t, a)
  }

  /** A manifest, visible or left by a crash, implies every artifact. */
  predicate Covered(visible: Tree, durable: Tree, order: seq<Artifact>, manifest: Path) {
    manifest in visible && !Targets(order, manifest) ==> HasAll(durable, order)
  }

  /** The file a record describes, by mode, size and digest. */
  predicate InstalledAs(t: Tree, e: Entry) {
    && e.target in t && t[e.target].mode == e.mode && t[e.target].content.Raw?
    && |t[e.target].content.bytes| == e.size && R.Sha256(t[e.target].content.bytes) == e.sha
  }

  /** Checking the digests of a manifest is checking the bytes of its sources. */
  lemma DescribedIsInstalled(t: Tree, order: seq<Artifact>)
    ensures (forall e :: e in Manifest(order) ==> InstalledAs(t, e)) <==> HasAll(t, order)
  {
    if forall e :: e in Manifest(order) ==> InstalledAs(t, e) {
      forall a | a in order ensures Exact(t, a) {
        ManifestMembers(order, Describe(a));
        assert InstalledAs(t, Describe(a));
      }
    }
    if HasAll(t, order) {
      forall e | e in Manifest(order) ensures InstalledAs(t, e) {
        ManifestMembers(order, e);
        var a :| a in order && Describe(a) == e;
        assert Exact(t, a);
      }
    }
  }

  // ---- what completed runs have in common ----

  /** Whatever was interrupted on the way, completed runs over the same base end in the same file map. */
  lemma CompletedRunsConverge(base: Tree, t: Tree, u: Tree, order: seq<Artifact>, manifest: Path, document: File)
    requires DistinctTargets(order)
    requires Grown(base, t, order, manifest, document) && Complete(t, order, manifest, document)
    requires Grown(base, u, order, manifest, document) && Complete(u, order, manifest, document)
    ensures t == u
  {
  }

  /** A completed run is accepted when run again exactly when it had something to publish and the manifest did
      not overwrite an artifact. */
  lemma CompletedIsAccepted(t: Tree, order: seq<Artifact>, manifest: Path, encoded: nat)
    requires DistinctTargets(order) && Readable(order) && ModesValid(order) && encoded <= MAX_MANIFEST_BYTES
    requires Complete(t, order, manifest, File(Document(Manifest(order), encoded), MANIFEST_MODE))
    ensures Acceptable(t, order, manifest, encoded) <==> order != [] && !Targets(order, manifest)
  {
    ManifestIsValid(order);
    if Targets(order, manifest) {
      var a :| a in order && a.target == manifest;
      assert !Exact(t, a);
    } else {
      assert forall a :: a in order ==> Targets(order, a.target);
    }
  }

  lemma ManifestIsValid(order: seq<Artifact>)
    requires DistinctTargets(order) && Readable(order) && ModesValid(order)
    ensures DocumentValid(Manifest(order)) <==> order != []
  {
    ManifestAscendsStrictly(order);
    SortSorts(Entries(order));
    assert |multiset(Manifest(order))| == |multiset(Entries(order))|;
    forall e | e in Manifest(order) ensures RecordValid(e) {
      ManifestMembers(order, e);
    }
  }

  // ---- the writes of a run ----

  datatype Disk = Disk(visible: Tree, durable: Tree)

  /** A rename into place, the fsync of its directory, os.sync; and a crash, which leaves some image. */
  datatype Write = Put(path: Path, file: File) | Fsync(path: Path) | Flush | Lose(image: Tree)

  function Do(d: Disk, w: Write): Disk {
    match w
    case Put(p, f) => d.(visible := d.visible[p := f])
    case Fsync(p) => if p in d.visible then d.(durable := d.durable[p := d.visible[p]]) else d
    case Flush => d.(durable := d.visible)
    case Lose(t) => Disk(t, t)
  }

  function Play(d: Disk, writes: seq<Write>): Disk {
    if writes == [] then d else Do(Play(d, writes[..|writes| - 1]), writes[|writes| - 1])
  }

  lemma PlayOneMore(d: Disk, writes: seq<Write>, w: Write)
    ensures Play(d, writes + [w]) == Do(Play(d, writes), w)
  {
    assert (writes + [w])[..|writes|] == writes;
  }

  /** The artifacts before `n`, over the tree the run found. */
  function Publications(t: Tree, order: seq<Artifact>, n: nat): seq<Write>
    requires n <= |order|
  {
    if n == 0 then [] else Publications(t, order, n - 1) + Next(t, order, n - 1)
  }

  /** A present artifact is skipped, and everything is flushed once before the first drop-in. */
  function Next(t: Tree, order: seq<Artifact>, n: nat): seq<Write>
    requires n < |order|
  {
    var a := order[n];
    (if a.class_.ConsumerDropin? && !HasDropin(order[..n]) then [Flush] else [])
    + (if a.target in t then [] else [Put(a.target, Installed(a)), Fsync(a.target)])
  }

  predicate HasDropin(order: seq<Artifact>) {
    exists a :: a in order && a.class_.ConsumerDropin?
  }

  /** Everything a run writes over the tree it finds, the manifest last. */
  function Writes(t: Tree, order: seq<Artifact>, manifest: Path, document: File): seq<Write> {
    if manifest in t then []
    else Publications(t, order, |order|) + [Put(manifest, document), Fsync(manifest), Flush]
  }

  // ---- what the manifest stands for ----

  lemma {:induction false} PlayJoin(d: Disk, a: seq<Write>, b: seq<Write>)
    ensures Play(d, a + b) == Play(Play(d, a), b)
  {
    if b == [] {
      assert a + b == a;
    } else {
      PlayJoin(d, a, b[..|b| - 1]);
      assert (a + b)[..|a + b| - 1] == a + b[..|b| - 1];
    }
  }

  /** What the first `n` publications over `v` and `d` leave. */
  ghost predicate Progress(v: Tree, d: Tree, order: seq<Artifact>, n: nat, s: Disk) {
    && n <= |order|
    && Published(v, d, order, n, s)
    && (HasDropin(order[..n]) ==> Within(v, s.durable))
    && (!HasDropin(order[..n]) ==> Unflushed(v, d, order, n, s))
  }

  /** Nothing is lost, and what the run published itself is durable. */
  ghost predicate Published(v: Tree, d: Tree, order: seq<Artifact>, n: nat, s: Disk)
    requires n <= |order|
  {
    && Within(s.durable, s.visible) && Within(v, s.visible) && Within(d, s.durable)
    && (forall p :: p in s.visible ==> p in v || exists k :: 0 <= k < n && order[k].target == p)
    && (forall k :: 0 <= k < n && order[k].target !in v ==> Exact(s.durable, order[k]))
  }

  /** Nothing else became durable. */
  ghost predicate Unflushed(v: Tree, d: Tree, order: seq<Artifact>, n: nat, s: Disk)
    requires n <= |order|
  {
    forall p :: p in s.durable ==> p in d || exists k :: 0 <= k < n && order[k].target == p && p !in v
  }

  /** One publication, possibly behind the flush, as a world. */
  function Flushed(s: Disk, order: seq<Artifact>, n: nat): Disk
    requires n < |order|
  {
    if order[n].class_.ConsumerDropin? && !HasDropin(order[..n]) then Disk(s.visible, s.visible) else s
  }

  lemma PlayNext(v: Tree, s: Disk, order: seq<Artifact>, n: nat)
    requires n < |order|
    ensures Play(s, Next(v, order, n)) == Grow(v, Flushed(s, order, n), order[n])
  {
    var a := order[n];
    var flush := if a.class_.ConsumerDropin? && !HasDropin(order[..n]) then [Flush] else [];
    var puts := if a.target in v then [] else [Put(a.target, Installed(a)), Fsync(a.target)];
    PlayJoin(s, flush, puts);
    PlayOneMore(s, [], Flush);
    assert [] + [Flush] == [Flush];
    var f := Flushed(s, order, n);
    PlayOneMore(f, [], Put(a.target, Installed(a)));
    PlayOneMore(f, [Put(a.target, Installed(a))], Fsync(a.target));
    assert [] + [Put(a.target, Installed(a))] == [Put(a.target, Installed(a))];
    assert [Put(a.target, Installed(a))] + [Fsync(a.target)] == [Put(a.target, Installed(a)), Fsync(a.target)];
  }

  /** `s` after the publication of an artifact that is in `v`, or is not. */
  function Grow(v: Tree, s: Disk, a: Artifact): Disk {
    if a.target in v then s else Disk(s.visible[a.target := Installed(a)], s.durable[a.target := Installed(a)])
  }

  lemma UpdatesStayWithin(v: Tree, d: Tree, s: Disk, p: Path, file: File)
    requires Within(s.durable, s.visible) && Within(v, s.visible) && Within(d, s.durable) && p !in s.visible
    ensures Within(s.durable[p := file], s.visible[p := file])
    ensures Within(v, s.visible[p := file]) && Within(d, s.durable[p := file])
    ensures Within(v, s.durable) ==> Within(v, s.durable[p := file])
  {
  }

  lemma PublishedGrows(v: Tree, d: Tree, order: seq<Artifact>, n: nat, s: Disk)
    requires DistinctTargets(order) && n < |order| && Published(v, d, order, n, s)
    ensures Published(v, d, order, n + 1, Grow(v, s, order[n]))
  {
    hide Within;
    var a, t := order[n], Grow(v, s, order[n]);
    if a.target !in v {
      assert a.target !in s.visible;
      UpdatesStayWithin(v, d, s, a.target, Installed(a));
      forall k | 0 <= k < n + 1 && order[k].target !in v ensures Exact(t.durable, order[k]) {
        assert k < n ==> order[k].target != a.target && Exact(s.durable, order[k]);
      }
    }
    forall p | p in t.visible && p !in v ensures exists k :: 0 <= k < n + 1 && order[k].target == p {
      if p == a.target { assert order[n].target == p; }
    }
  }

  lemma UnflushedGrows(v: Tree, d: Tree, order: seq<Artifact>, n: nat, s: Disk)
    requires n < |order| && Unflushed(v, d, order, n, s)
    ensures Unflushed(v, d, order, n + 1, Grow(v, s, order[n]))
  {
    var t := Grow(v, s, order[n]);
    forall p | p in t.durable && p !in d ensures exists k :: 0 <= k < n + 1 && order[k].target == p && p !in v {
      if p in s.durable {
        var k :| 0 <= k < n && order[k].target == p && p !in v;
      } else {
        assert order[n].target == p;
      }
    }
  }

  lemma FlushedIsPublished(v: Tree, d: Tree, order: seq<Artifact>, n: nat, s: Disk)
    requires n < |order| && Published(v, d, order, n, s)
    ensures Published(v, d, order, n, Flushed(s, order, n))
  {
    if Flushed(s, order, n) != s {
      forall k | 0 <= k < n && order[k].target !in v ensures Exact(s.visible, order[k]) {
        assert Exact(s.durable, order[k]);
      }
      assert Within(d, s.visible) && Within(s.visible, s.visible);
    }
  }

  lemma ProgressGrows(v: Tree, d: Tree, order: seq<Artifact>, n: nat, s: Disk)
    requires DistinctTargets(order) && n < |order| && Progress(v, d, order, n, s)
    ensures Progress(v, d, order, n + 1, Grow(v, Flushed(s, order, n), order[n]))
  {
    hide Unflushed;
    var f, a := Flushed(s, order, n), order[n];
    assert order[..n + 1] == order[..n] + [a];
    assert HasDropin(order[..n + 1]) <==> HasDropin(order[..n]) || a.class_.ConsumerDropin?;
    FlushedIsPublished(v, d, order, n, s);
    PublishedGrows(v, d, order, n, f);
    if HasDropin(order[..n + 1]) {
      assert Within(v, f.durable);
      if a.target !in v { UpdatesStayWithin(v, d, f, a.target, Installed(a)); }
    }
    if !HasDropin(order[..n + 1]) { UnflushedGrows(v, d, order, n, s); }
  }

  lemma {:induction false} PublicationsProgress(v: Tree, d: Tree, order: seq<Artifact>, n: nat)
    requires DistinctTargets(order) && n <= |order| && Within(d, v)
    ensures Progress(v, d, order, n, Play(Disk(v, d), Publications(v, order, n)))
  {
    hide Progress, Next, Grow, Flushed;
    if n == 0 {
      NoProgress(v, d, order);
    } else {
      PublicationsProgress(v, d, order, n - 1);
      var s := Play(Disk(v, d), Publications(v, order, n - 1));
      PlayJoin(Disk(v, d), Publications(v, order, n - 1), Next(v, order, n - 1));
      PlayNext(v, s, order, n - 1);
      ProgressGrows(v, d, order, n - 1, s);
    }
  }

  lemma NoProgress(v: Tree, d: Tree, order: seq<Artifact>)
    requires Within(d, v)
    ensures Progress(v, d, order, 0, Disk(v, d))
  {
  }

  /** A publication over `v` and `d` leaves every artifact durable before its manifest: it has a drop-in, whose barrier
      flushes what earlier runs left unsynced, or they left nothing unsynced. */
  predicate Secured(v: Tree, d: Tree, order: seq<Artifact>) {
    HasDropin(order) || forall a :: a in order && Exact(v, a) ==> Exact(d, a)
  }

  /** No artifact of the order is in place with other bytes. */
  predicate Unmixed(t: Tree, order: seq<Artifact>) {
    forall a :: a in order && a.target in t ==> Exact(t, a)
  }

  /** When all artifacts are handled, they are durable exactly if the publication was secured from the start. */
  lemma SecuredIsDurable(v: Tree, d: Tree, order: seq<Artifact>)
    requires DistinctTargets(order) && Within(d, v) && Unmixed(v, order)
    ensures var s := Play(Disk(v, d), Publications(v, order, |order|));
            && Within(s.durable, s.visible)
            && (HasAll(s.durable, order) <==> Secured(v, d, order))
            && (forall p :: p in s.visible ==> p in v || Targets(order, p))
  {
    PublicationsProgress(v, d, order, |order|);
    var s := Play(Disk(v, d), Publications(v, order, |order|));
    assert order[..|order|] == order;
    if Secured(v, d, order) {
      forall a | a in order ensures Exact(s.durable, a) {
        var k :| 0 <= k < |order| && order[k] == a;
      }
    } else {
      var a :| a in order && Exact(v, a) && !Exact(d, a);
      assert a.target in s.durable ==> a.target in d;
    }
  }

  predicate Puts(writes: seq<Write>, p: Path) {
    exists i :: 0 <= i < |writes| && writes[i].Put? && writes[i].path == p
  }

  lemma {:induction false} PublicationsPutTargets(t: Tree, order: seq<Artifact>, n: nat, p: Path)
    requires n <= |order| && !Targets(order, p)
    ensures !Puts(Publications(t, order, n), p)
    ensures forall i :: 0 <= i < |Publications(t, order, n)| ==> !Publications(t, order, n)[i].Lose?
  {
    if n > 0 {
      PublicationsPutTargets(t, order, n - 1, p);
      assert order[n - 1] in order;
    }
  }

  lemma {:induction false} UnputStaysAbsent(d: Disk, writes: seq<Write>, p: Path)
    requires p !in d.visible && p !in d.durable && !Puts(writes, p)
    requires forall i :: 0 <= i < |writes| ==> !writes[i].Lose?
    ensures p !in Play(d, writes).visible && p !in Play(d, writes).durable
  {
    if writes != [] {
      var init := writes[..|writes| - 1];
      assert forall i :: 0 <= i < |init| ==> init[i] == writes[i];
      UnputStaysAbsent(d, init, p);
    }
  }

  /** Before the manifest is put no crash image has it. */
  lemma NoManifestBefore(v: Tree, d: Tree, order: seq<Artifact>, manifest: Path, k: nat)
    requires Within(d, v) && manifest !in v && !Targets(order, manifest) && k <= |Publications(v, order, |order|)|
    ensures var s := Play(Disk(v, d), Publications(v, order, |order|)[..k]); manifest !in s.visible && manifest !in s.durable
  {
    var all := Publications(v, order, |order|);
    PublicationsPutTargets(v, order, |order|, manifest);
    assert forall i :: 0 <= i < k ==> all[..k][i] == all[i];
    UnputStaysAbsent(Disk(v, d), all[..k], manifest);
  }

  /** The writes after the last artifact. */
  lemma PlayManifest(s: Disk, manifest: Path, document: File, m: nat)
    requires m <= 3
    ensures var x := Play(s, [Put(manifest, document), Fsync(manifest), Flush][..m]);
            && x.visible == (if m == 0 then s.visible else s.visible[manifest := document])
            && x.durable == (if m == 3 then x.visible else if m == 2 then s.durable[manifest := document] else s.durable)
  {
    var all := [Put(manifest, document), Fsync(manifest), Flush];
    assert all[..1] == [] + [all[0]] && all[..2] == all[..1] + [all[1]] && all[..3] == all[..2] + [all[2]];
    PlayOneMore(s, [], all[0]);
    PlayOneMore(s, all[..1], all[1]);
    PlayOneMore(s, all[..2], all[2]);
  }

  /** Wherever a run is killed and whenever the power fails, a manifest comes with every artifact. */
  ghost predicate ManifestIsHonest(v: Tree, d: Tree, order: seq<Artifact>, manifest: Path, document: File) {
    forall k, t | 0 <= k <= |Writes(v, order, manifest, document)| && manifest in t ::
      ImageOf(Play(Disk(v, d), Writes(v, order, manifest, document)[..k]), t) ==> HasAll(t, order)
  }

  ghost predicate ImageOf(s: Disk, t: Tree) {
    Image(s.visible, s.durable, t)
  }

  lemma HonestAfter(s: Disk, order: seq<Artifact>, manifest: Path, document: File, m: nat, t: Tree)
    requires Within(s.durable, s.visible) && HasAll(s.durable, order) && !Targets(order, manifest) && m <= 3
    requires ImageOf(Play(s, [Put(manifest, document), Fsync(manifest), Flush][..m]), t)
    ensures HasAll(t, order)
  {
    PlayManifest(s, manifest, document, m);
    var x := Play(s, [Put(manifest, document), Fsync(manifest), Flush][..m]);
    forall a | a in order ensures Exact(t, a) {
      assert Targets(order, a.target) && Exact(s.durable, a);
      assert SameAt(t, x.visible, a.target) || SameAt(t, x.durable, a.target);
    }
  }

  /** The manifest of a run is honest exactly when the publication is secured by what the run starts with: by a
      drop-in among its arguments, or by artifacts of earlier runs that are all durable. */
  lemma ManifestNeedsDurableArtifacts(v: Tree, d: Tree, order: seq<Artifact>, manifest: Path, document: File)
    requires DistinctTargets(order) && Within(d, v) && Unmixed(v, order) && manifest !in v && !Targets(order, manifest)
    ensures ManifestIsHonest(v, d, order, manifest, document) <==> Secured(v, d, order)
    ensures forall t: Tree, encoded :: manifest in t && !HasAll(t, order) ==> !Acceptable(t, order, manifest, encoded)
  {
    hide Play, Publications, Secured, Image, HasAll, Within, DistinctTargets, Targets, Unmixed;
    SecuredIsDurable(v, d, order);
    var all, last := Publications(v, order, |order|), [Put(manifest, document), Fsync(manifest), Flush];
    var s := Play(Disk(v, d), all);
    if Secured(v, d, order) {
      forall k, t | 0 <= k <= |all + last| && manifest in t && ImageOf(Play(Disk(v, d), (all + last)[..k]), t)
        ensures HasAll(t, order)
      {
        if k <= |all| {
          assert (all + last)[..k] == all[..k];
          NoManifestBefore(v, d, order, manifest, k);
          AbsentInImage(Play(Disk(v, d), all[..k]), t, manifest);
        } else {
          var m := k - |all|;
          assert (all + last)[..k] == all + last[..m];
          PlayJoin(Disk(v, d), all, last[..m]);
          HonestAfter(s, order, manifest, document, m, t);
        }
      }
    } else {
      var k := |all| + 2;
      assert (all + last)[..k] == all + last[..2];
      PlayJoin(Disk(v, d), all, last[..2]);
      PlayManifest(s, manifest, document, 2);
      var t := s.durable[manifest := document];
      DurableIsImage(Play(Disk(v, d), (all + last)[..k]));
      ManifestIsNoArtifact(s.durable, order, manifest, document);
      assert 0 <= k <= |Writes(v, order, manifest, document)| && manifest in t && !HasAll(t, order);
    }
  }

  lemma AbsentInImage(s: Disk, t: Tree, p: Path)
    requires p !in s.visible && p !in s.durable && ImageOf(s, t)
    ensures p !in t
  {
    assert SameAt(t, s.visible, p) || SameAt(t, s.durable, p);
  }

  lemma DurableIsImage(s: Disk)
    ensures ImageOf(s, s.durable)
  {
  }

  lemma ManifestIsNoArtifact(t: Tree, order: seq<Artifact>, manifest: Path, document: File)
    requires !Targets(order, manifest)
    ensures HasAll(t[manifest := document], order) <==> HasAll(t, order)
  {
    assert forall a :: a in order ==> Targets(order, a.target) && (Exact(t[manifest := document], a) <==> Exact(t, a));
  }

  /** One run is killed between the rename of its only artifact and the fsync; the next one finds the artifact in
      place, publishes the manifest and is killed before os.sync.  A power loss then keeps the manifest without the
      artifact, and every later run refuses. */
  lemma LostArtifactHappens()
      returns (order: seq<Artifact>, manifest: Path, document: File, first: seq<Write>, second: seq<Write>, lost: Tree)
    ensures DistinctTargets(order) && Readable(order) && ModesValid(order) && !Targets(order, manifest)
    ensures document == File(Document(Manifest(order), 100), MANIFEST_MODE)
    ensures Acceptable(map[], order, manifest, 100) && first <= Writes(map[], order, manifest, document)
    ensures var d1 := Play(Disk(map[], map[]), first);
            && Acceptable(d1.visible, order, manifest, 100) && second <= Writes(d1.visible, order, manifest, document)
            && var d2 := Play(d1, second);
               && Image(d2.visible, d2.durable, lost) && manifest in lost && !HasAll(lost, order)
    ensures !Acceptable(lost, order, manifest, 100)
  {
    var a := Artifact(Prerequisite, 1, 0x1a4, "x");
    order, manifest := [a], 2;
    document := File(Document(Manifest(order), 100), MANIFEST_MODE);
    first, second := [Put(1, Installed(a))], [Put(2, document), Fsync(2)];
    var d0 := Disk(map[], map[]);
    OneArtifact(map[], a);
    assert Play(d0, first) == Do(d0, first[0]) by { assert first[..0] == []; }
    var d1 := Play(d0, first);
    OneArtifact(d1.visible, a);
    assert second == [second[0]] + [second[1]];
    PlayOneMore(d1, [], second[0]);
    PlayOneMore(d1, [second[0]], second[1]);
    assert [] + [second[0]] == [second[0]];
    lost := Play(d1, second).durable;
    assert a in order && !Exact(lost, a);
    assert DistinctTargets(order) && !Targets(order, manifest);
  }

  lemma OneArtifact(t: Tree, a: Artifact)
    requires a.class_.Prerequisite?
    ensures Publications(t, [a], 1) == if a.target in t then [] else [Put(a.target, Installed(a)), Fsync(a.target)]
  {
  }

  // ---- --verify-installed ----

  datatype Expected = Expected(target: Path, mode: nat, class_: ActivationClass)

  function Contract(records: seq<Entry>): set<Expected> {
    set e | e in records :: Expected(e.target, e.mode, e.class_)
  }

  function ContractOf(order: seq<Artifact>): set<Expected> {
    set a | a in order :: Expected(a.target, a.mode, a.class_)
  }

  function Members(expected: seq<Expected>): set<Expected> {
    set x | x in expected
  }

  /** What verify_installed_manifest accepts. */
  predicate Verifies(t: Tree, manifest: Path, expected: seq<Expected>) {
    && manifest in t && t[manifest].mode == MANIFEST_MODE && t[manifest].content.Document?
    && t[manifest].content.size <= MAX_MANIFEST_BYTES
    && var records := t[manifest].content.records;
       && DocumentValid(records)
       && |Members(expected)| == |expected| && Contract(records) == Members(expected)
       && forall e :: e in records ==> InstalledAs(t, e)
  }

  lemma ManifestContract(order: seq<Artifact>)
    ensures Contract(Manifest(order)) == ContractOf(order)
  {
    forall x ensures x in Contract(Manifest(order)) <==> x in ContractOf(order) {
      if x in Contract(Manifest(order)) {
        var e :| e in Manifest(order) && Expected(e.target, e.mode, e.class_) == x;
        ManifestMembers(order, e);
      }
      if x in ContractOf(order) {
        var a :| a in order && Expected(a.target, a.mode, a.class_) == x;
        ManifestMembers(order, Describe(a));
        assert Describe(a) in Manifest(order);
      }
    }
  }

  /** A completed publication verifies against exactly the contracts that list its artifacts once each. */
  lemma CompletedVerifies(t: Tree, order: seq<Artifact>, manifest: Path, encoded: nat, expected: seq<Expected>)
    requires DistinctTargets(order) && Readable(order) && ModesValid(order) && order != []
    requires !Targets(order, manifest) && encoded <= MAX_MANIFEST_BYTES
    requires Complete(t, order, manifest, File(Document(Manifest(order), encoded), MANIFEST_MODE))
    ensures Verifies(t, manifest, expected) <==> |Members(expected)| == |expected| && Members(expected) == ContractOf(order)
  {
    ManifestIsValid(order);
    ManifestContract(order);
    assert HasAll(t, order) by {
      assert forall a :: a in order ==> Targets(order, a.target);
    }
    DescribedIsInstalled(t, order);
  }

  /** One host on which bootstrap runs with fixed arguments; files of other owners do not change meanwhile. */
  class Installation {
    var visible: Tree
    var durable: Tree

    const manifest: Path
    const prerequisites: seq<Artifact>
    const dropins: seq<Artifact>
    const encoded: nat
    // no kill arrives and every write succeeds
    const calm: bool
    ghost const base: Tree
    ghost var log: seq<Write>

    function Order(): seq<Artifact> {
      prerequisites + dropins
    }

    function ManifestFile(): File {
      File(Document(Manifest(Order()), encoded), MANIFEST_MODE)
    }

    /** The two trees are what the recorded writes make of the first one. */
    ghost predicate Recorded()
      reads this
    {
      Disk(visible, durable) == Play(Disk(base, base), log)
    }

    ghost predicate Valid()
      reads this
    {
      && Recorded()
      && (forall a :: a in prerequisites ==> a.class_.Prerequisite?)
      && (forall a :: a in dropins ==> a.class_.ConsumerDropin?)
      && ModesValid(Order())
      && Grown(base, visible, Order(), manifest, ManifestFile())
      && Grown(base, durable, Order(), manifest, ManifestFile())
      && (!Targets(Order(), manifest) ==>
            && Within(durable, visible)
            && (Untouched(base, Order()) ==> Guarded(visible, durable, Order())))
      && ManifestCovered()
    }

    /** With a drop-in among the artifacts a manifest of this publication comes with all of them, on any disk. */
    ghost predicate ManifestCovered()
      reads this
    {
      HasDropin(Order()) && manifest !in base ==> Covered(visible, durable, Order(), manifest)
    }

    /** However the run was interrupted, crashed and resumed before: a manifest that survives a crash is honest. */
    lemma ManifestSurvivesHonestly(t: Tree)
      requires Valid() && Image(visible, durable, t)
      requires HasDropin(Order()) && manifest !in base && !Targets(Order(), manifest)
      ensures manifest in t ==> HasAll(t, Order())
    {
      if manifest in t {
        assert SameAt(t, visible, manifest) || SameAt(t, durable, manifest);
        forall a | a in Order() ensures Exact(t, a) {
          assert Exact(durable, a);
          assert SameAt(t, visible, a.target) || SameAt(t, durable, a.target);
        }
      }
    }

    constructor (t: Tree, m: Path, ps: seq<Artifact>, ds: seq<Artifact>, size: nat, calm: bool)
      requires forall a :: a in ps ==> a.class_.Prerequisite?
      requires forall a :: a in ds ==> a.class_.ConsumerDropin?
      requires ModesValid(ps + ds)
      ensures Valid() && visible == t && durable == t && base == t
      ensures manifest == m && prerequisites == ps && dropins == ds && encoded == size
      ensures this.calm == calm && log == []
    {
      visible, durable, base, log := t, t, t, [];
      this.calm := calm;
      manifest, prerequisites, dropins, encoded := m, ps, ds, size;
    }

    /** A power loss keeps what was durable and an arbitrary part of the rest. */
    method Crash(t: Tree)
      requires Valid() && Image(visible, durable, t)
      modifies this
      ensures Valid() && visible == t && durable == t && log == old(log) + [Lose(t)]
    {
      hide Grown, Image, Guarded, Play;
      ImageKeepsGrown(base, visible, durable, t, Order(), manifest, ManifestFile());
      if !Targets(Order(), manifest) && Untouched(base, Order()) {
        BarrierHolds(visible, durable, t, Order());
      }
      if HasDropin(Order()) && manifest !in base && !Targets(Order(), manifest) { ManifestSurvivesHonestly(t); }
      visible, durable := t, t;
      Note(Lose(t));
    }

    ghost method Note(w: Write)
      requires Disk(visible, durable) == Do(Play(Disk(base, base), log), w)
      modifies this`log
      ensures Recorded() && log == old(log) + [w]
    {
      PlayOneMore(Disk(base, base), log, w);
      log := log + [w];
    }

    /** The process may die here. */
    method Kill() returns (r: Status)
      ensures r.Done? || (r.Killed? && !calm)
    {
      r := Done;
      if !calm { if * { r := Killed; } }
    }

    /** The run so far has made these writes, or the first of them. */
    twostate predicate Wrote(r: Status, writes: seq<Write>)
      reads this
    {
      && old(log) <= log && log[|old(log)|..] <= writes
      && (r.Done? ==> log == old(log) + writes)
    }

    /** publish: a complete file appears under its name, then its directory is fsynced. */
    method Publish(target: Path, file: File) returns (r: Status)
      requires Recorded()
      modifies this
      ensures Recorded() && !r.Refused? && (calm ==> r.Done?)
      ensures r.Done? ==> visible == old(visible)[target := file] && durable == old(durable)[target := file]
      ensures visible == old(visible) || visible == old(visible)[target := file]
      ensures durable == old(durable) || (durable == old(durable)[target := file] && visible == old(visible)[target := file])
      ensures Wrote(r, [Put(target, file), Fsync(target)])
    {
      hide Play;
      r := Kill();
      if !r.Done? { return; }
      visible := visible[target := file];
      Note(Put(target, file));
      r := Kill();
      if !r.Done? { return; }
      durable := durable[target := file];
      Note(Fsync(target));
      assert log == old(log) + [Put(target, file), Fsync(target)];
      r := Kill();
    }

    /** os.sync. */
    method SyncAll()
      requires Valid()
      modifies this`durable, this`log
      ensures Valid() && durable == visible && log == old(log) + [Flush]
    {
      hide Play;
      durable := visible;
      Note(Flush);
    }

    /** One artifact of the publication order: verified if present, published if not. */
    method PublishArtifact(a: Artifact) returns (r: Status)
      requires Valid() && a in Order() && DistinctTargets(Order())
      requires a.class_.ConsumerDropin? ==> HasPrerequisites(durable, Order())
      modifies this
      ensures Valid() && Within(old(visible), visible)
      ensures visible == old(visible) || visible == old(visible)[a.target := Installed(a)]
      ensures durable == old(durable) || durable == old(durable)[a.target := Installed(a)]
      ensures r.Refused? ==> a.target in visible && !Exact(visible, a)
      ensures r.Done? ==> Exact(visible, a) && (old(durable) == old(visible) ==> durable == visible)
      ensures calm ==> !r.Killed?
      ensures Wrote(r, if a.target in old(visible) then [] else [Put(a.target, Installed(a)), Fsync(a.target)])
    {
      hide Grown, Guarded, HasPrerequisites, Targets, Untouched, DistinctTargets, ModesValid, Play;
      if a.target in visible {
        return if visible[a.target] == Installed(a) then Done else Refused;
      }
      AbsentFromBase(a.target);
      AddKeepsGrown(base, visible, Order(), manifest, ManifestFile(), a);
      AddKeepsGrown(base, durable, Order(), manifest, ManifestFile(), a);
      r := Publish(a.target, Installed(a));
      if !Targets(Order(), manifest) && Untouched(base, Order()) {
        AddKeepsGuard(old(visible), old(durable), visible, durable, Order(), a);
      }
      ArtifactKeepsCover(old(visible), old(durable), visible, durable, Order(), manifest, a);
    }

    /** An artifact is still missing only while there is no manifest. */
    static lemma ArtifactKeepsCover(v: Tree, d: Tree, v': Tree, d': Tree, order: seq<Artifact>, manifest: Path, a: Artifact)
      requires a in order && a.target !in v && (!Targets(order, manifest) ==> Within(d, v))
      requires v' == v || v' == v[a.target := Installed(a)]
      requires d' == d || d' == d[a.target := Installed(a)]
      ensures Covered(v, d, order, manifest) ==> Covered(v', d', order, manifest)
    {
    }

    static lemma ManifestKeepsCover(d: Tree, v': Tree, d': Tree, order: seq<Artifact>, manifest: Path, document: File)
      requires d' == d || d' == d[manifest := document]
      ensures HasAll(d, order) ==> Covered(v', d', order, manifest)
    {
      assert forall a :: a in order ==> Targets(order, a.target);
    }

    lemma StaysWithin()
      requires Valid() && !Targets(Order(), manifest)
      ensures Within(durable, visible)
    {
    }

    lemma AbsentFromBase(p: Path)
      requires Valid() && p !in visible
      ensures p !in base
    {
    }

    /** Before the first drop-in every prerequisite has been handled. */
    lemma PrerequisitesComeFirst(index: nat)
      requires Valid() && index < |Order()| && Order()[index].class_.ConsumerDropin?
      requires forall k :: 0 <= k < index ==> Exact(visible, Order()[k])
      ensures HasPrerequisites(visible, Order())
    {
    }

    /** The manifest is published last. */
    method PublishManifest() returns (r: Status)
      requires Valid() && manifest !in base
      requires HasDropin(Order()) && !Targets(Order(), manifest) ==> HasAll(durable, Order())
      modifies this
      ensures Valid() && !r.Refused?
      ensures visible == old(visible) || visible == old(visible)[manifest := ManifestFile()]
      ensures durable == old(durable) || durable == old(durable)[manifest := ManifestFile()]
      ensures r.Done? ==> visible == old(visible)[manifest := ManifestFile()]
      ensures calm ==> r.Done?
      ensures Wrote(r, [Put(manifest, ManifestFile()), Fsync(manifest)])
    {
      hide DistinctTargets, ModesValid, Grown, Guarded, Targets, Untouched, Play;
      AddManifestKeepsGrown(base, visible, Order(), manifest, ManifestFile());
      AddManifestKeepsGrown(base, durable, Order(), manifest, ManifestFile());
      r := Publish(manifest, ManifestFile());
      if !Targets(Order(), manifest) {
        AddManifestKeepsGuard(base, old(visible), old(durable), visible, durable, Order(), manifest, ManifestFile());
      }
      ManifestKeepsCover(old(durable), visible, durable, Order(), manifest, ManifestFile());
    }

    /** The checks of a run that finds a manifest. */
    method CheckEstablished(records: seq<Entry>) returns (r: Status)
      requires Valid() && manifest in visible && records == Manifest(Order())
      ensures r.Done? <==> Established(visible, Order(), manifest)
      ensures !r.Killed?
    {
      hide Grown, Guarded, Targets, Untouched, DistinctTargets, ModesValid, DocumentValid;
      var file := visible[manifest];
      if file.mode != MANIFEST_MODE || !file.content.Document? || file.content.size > MAX_FILE_BYTES { return Refused; }
      var ok := ValidateManifestDocument(file.content.records);
      if !ok || file.content.records != records { return Refused; }
      var same := VerifyArtifacts(records);
      DescribedIsInstalled(visible, Order());
      return if same then Done else Refused;
    }

    /** Every recorded artifact is installed with the recorded mode, size and digest. */
    method VerifyArtifacts(records: seq<Entry>) returns (same: bool)
      ensures same <==> forall e :: e in records ==> InstalledAs(visible, e)
    {
      var index := 0;
      while index < |records|
        invariant 0 <= index <= |records|
        invariant forall i :: 0 <= i < index ==> InstalledAs(visible, records[i])
      {
        var e := records[index];
        if e.target !in visible {
          assert !InstalledAs(visible, records[index]);
          return false;
        }
        var file := visible[e.target];
        if file.mode != e.mode || !file.content.Raw? || |file.content.bytes| != e.size {
          assert !InstalledAs(visible, records[index]);
          return false;
        }
        if R.Sha256(file.content.bytes) != e.sha {
          assert !InstalledAs(visible, records[index]);
          return false;
        }
        index := index + 1;
      }
      return true;
    }

    /** One artifact, behind the activation barrier if it is the first drop-in. */
    method PublishNext(order: seq<Artifact>, index: nat, crossed: bool) returns (r: Status, crosses: bool)
      requires Valid() && order == Order() && DistinctTargets(order) && index < |order|
      requires forall k :: 0 <= k < index ==> Exact(visible, order[k])
      requires crossed <==> HasDropin(order[..index])
      requires crossed ==> HasPrerequisites(durable, order)
      modifies this
      ensures Valid() && Within(old(visible), visible)
      ensures visible == old(visible) || visible == old(visible)[order[index].target := Installed(order[index])]
      ensures crosses <==> HasDropin(order[..index + 1])
      ensures crosses ==> HasPrerequisites(durable, order)
      ensures r.Refused? ==> order[index].target in visible && !Exact(visible, order[index]) && visible == old(visible)
      ensures r.Done? ==> Exact(visible, order[index]) && (old(durable) == old(visible) ==> durable == visible)
      ensures calm ==> !r.Killed?
      ensures Wrote(r, Next(old(visible), order, index))
    {
      hide Grown, Guarded, Untouched, ModesValid, Play, Targets, DistinctTargets;
      var a := order[index];
      assert order[..index + 1] == order[..index] + [a];
      crosses := crossed || a.class_.ConsumerDropin?;
      if crosses && !crossed {
        PrerequisitesComeFirst(index);
        SyncAll();
      }
      ghost var synced, stable := log, durable;
      r := PublishArtifact(a);
      if crosses { PrerequisitesStay(stable, durable, order, a); }
      ExtendsTo(old(log), synced[|old(log)|..], log,
                if a.target in old(visible) then [] else [Put(a.target, Installed(a)), Fsync(a.target)],
                Next(old(visible), order, index));
    }

    /** `u` is `t` with the artifacts before `n` in place. */
    static ghost predicate Reached(t: Tree, u: Tree, order: seq<Artifact>, n: nat) {
      && n <= |order| && Within(t, u)
      && (forall k :: 0 <= k < n ==> Exact(u, order[k]))
      && (forall p :: p in u ==> p in t || exists k :: 0 <= k < n && order[k].target == p)
    }

    static lemma ReachesNext(t: Tree, u: Tree, v: Tree, order: seq<Artifact>, n: nat)
      requires Reached(t, u, order, n) && n < |order| && DistinctTargets(order)
      requires v == u || v == u[order[n].target := Installed(order[n])]
      ensures Within(u, v) && Exact(v, order[n]) ==> Reached(t, v, order, n + 1)
      ensures Within(u, v) ==> Within(t, v) && forall p :: p in v ==> p in t || Targets(order, p)
    {
    }

    static lemma ReachedAll(t: Tree, u: Tree, order: seq<Artifact>)
      requires Reached(t, u, order, |order|)
      ensures Within(t, u) && HasAll(u, order) && forall p :: p in u ==> p in t || Targets(order, p)
      ensures forall a :: a in order && a.target in t ==> Exact(t, a)
    {
    }

    /** The publication loop with its activation barrier. */
    method PublishArtifacts(order: seq<Artifact>) returns (r: Status)
      requires Valid() && order == Order() && DistinctTargets(order)
      modifies this
      ensures Valid() && Within(old(visible), visible)
      ensures forall p :: p in visible ==> p in old(visible) || Targets(order, p)
      ensures r.Refused? ==> exists a :: a in order && a.target in old(visible) && !Exact(old(visible), a)
      ensures r.Done? ==> HasAll(visible, order)
      ensures r.Done? ==> forall a :: a in order && a.target in old(visible) ==> Exact(old(visible), a)
      ensures r.Done? && old(visible) == old(durable) ==> visible == durable
      ensures r.Done? && !Targets(order, manifest) ==> (HasAll(durable, order) <==> Secured(old(visible), old(durable), order))
      ensures calm ==> !r.Killed?
      ensures Wrote(r, Publications(old(visible), order, |order|))
    {
      hide Grown, Guarded, Untouched, ModesValid, Play, Next, HasDropin, HasPrerequisites, HasAll, Reached, Within, Targets,
           DistinctTargets;
      var index, crossed := 0, false;
      NoDropinYet(order);
      NothingReached(visible, order);
      while index < |order|
        invariant 0 <= index <= |order|
        invariant Valid() && Reached(old(visible), visible, order, index)
        invariant crossed ==> HasPrerequisites(durable, order)
        invariant old(visible) == old(durable) ==> visible == durable
        invariant crossed <==> HasDropin(order[..index])
        invariant log == old(log) + Publications(old(visible), order, index)
      {
        ghost var before := visible;
        PublicationsGrow(old(visible), order, index);
        SameNext(old(visible), visible, order, index);
        ReachedIsExact(old(visible), visible, order, index);
        r, crossed := PublishNext(order, index, crossed);
        ReachesNext(old(visible), before, visible, order, index);
        ExtendsTo(old(log), Publications(old(visible), order, index), log, Next(old(visible), order, index),
                  Publications(old(visible), order, |order|));
        if !r.Done? {
          if r.Refused? { FoundBefore(old(visible), before, order, index); }
          return;
        }
        index := index + 1;
      }
      ReachedAll(old(visible), visible, order);
      if !Targets(order, manifest) {
        PlayJoin(Disk(base, base), old(log), Publications(old(visible), order, |order|));
        StaysWithin();
        SecuredIsDurable(old(visible), old(durable), order);
      }
      r := Done;
    }

    static lemma ReachedIsExact(t: Tree, u: Tree, order: seq<Artifact>, n: nat)
      requires Reached(t, u, order, n)
      ensures forall k :: 0 <= k < n ==> Exact(u, order[k])
    {
    }

    static lemma NothingReached(t: Tree, order: seq<Artifact>)
      ensures Reached(t, t, order, 0)
    {
    }

    /** A foreign file was there from the start. */
    static lemma FoundBefore(t: Tree, u: Tree, order: seq<Artifact>, n: nat)
      requires Reached(t, u, order, n) && n < |order| && DistinctTargets(order)
      requires order[n].target in u && !Exact(u, order[n])
      ensures order[n] in order && order[n].target in t && !Exact(t, order[n])
    {
    }

    static lemma PrerequisitesStay(d: Tree, e: Tree, order: seq<Artifact>, a: Artifact)
      requires HasPrerequisites(d, order) && DistinctTargets(order) && a in order
      requires e == d || e == d[a.target := Installed(a)]
      ensures HasPrerequisites(e, order)
    {
    }

    static lemma NoDropinYet(order: seq<Artifact>)
      ensures !HasDropin(order[..0])
    {
    }

    /** What was published so far does not decide what comes next. */
    static lemma SameNext(t: Tree, u: Tree, order: seq<Artifact>, n: nat)
      requires n < |order| && DistinctTargets(order) && Reached(t, u, order, n)
      ensures order[n].target in u <==> order[n].target in t
      ensures Next(u, order, n) == Next(t, order, n)
    {
    }

    static lemma {:induction false} PublicationsGrow(t: Tree, order: seq<Artifact>, n: nat)
      requires n < |order|
      ensures Publications(t, order, n + 1) <= Publications(t, order, |order|)
      decreases |order| - n
    {
      if n + 1 < |order| {
        PublicationsGrow(t, order, n + 1);
      }
    }

    /** A log that extends `was + made` by the first of `next` extends `was` by the first of everything. */
    static lemma ExtendsTo(was: seq<Write>, made: seq<Write>, log: seq<Write>, next: seq<Write>, all: seq<Write>)
      requires was + made <= log && log[|was + made|..] <= next && made + next <= all
      ensures was <= log && log[|was|..] <= all
      ensures log == was + made + next ==> log == was + (made + next)
    {
      assert log[|was|..] == made + log[|was + made|..];
    }

    static lemma NoManifestYet(t: Tree, u: Tree, d: Tree, order: seq<Artifact>, manifest: Path)
      requires manifest !in t && forall p :: p in u ==> p in t || Targets(order, p)
      ensures Covered(u, d, order, manifest)
    {
    }

    static lemma ManifestCompletes(u: Tree, order: seq<Artifact>, manifest: Path, document: File)
      requires HasAll(u, order)
      ensures Complete(u[manifest := document], order, manifest, document)
    {
    }

    static lemma CoverStays(u: Tree, c: Tree, v: Tree, d: Tree, order: seq<Artifact>, manifest: Path, document: File)
      requires HasAll(u, order) && (d == c || d == c[manifest := document] || d == u || d == u[manifest := document])
      ensures HasAll(c, order) || Targets(order, manifest) ==> Covered(v, d, order, manifest)
    {
      assert forall a :: a in order ==> Targets(order, a.target);
    }

    /** The manifest, last, and os.sync. */
    method Conclude(order: seq<Artifact>) returns (r: Status)
      requires Valid() && order == Order() && manifest !in base && HasAll(visible, order)
      requires HasDropin(order) && !Targets(order, manifest) ==> HasAll(durable, order)
      modifies this
      ensures Valid()
      ensures visible == old(visible) || visible == old(visible)[manifest := ManifestFile()]
      ensures r.Done? ==> Complete(visible, order, manifest, ManifestFile()) && durable == visible
      ensures r.Refused? <==> encoded > MAX_MANIFEST_BYTES
      ensures HasAll(old(durable), order) || Targets(order, manifest) ==> Covered(visible, durable, order, manifest)
      ensures calm ==> !r.Killed?
      ensures Wrote(r, [Put(manifest, ManifestFile()), Fsync(manifest), Flush])
    {
      hide Grown, Guarded, Untouched, ModesValid, Play, HasAll, Targets, Covered, Complete, Exact, DistinctTargets;
      ghost var was, kept := visible, durable;
      CoverStays(was, durable, visible, durable, order, manifest, ManifestFile());
      if encoded > MAX_MANIFEST_BYTES { return Refused; }
      ManifestCompletes(visible, order, manifest, ManifestFile());
      r := PublishManifest();
      CoverStays(was, kept, visible, durable, order, manifest, ManifestFile());
      if !r.Done? { return; }
      SyncAll();
      CoverStays(was, kept, visible, durable, order, manifest, ManifestFile());
    }

    /** A run that finds no manifest. */
    method PublishAll(order: seq<Artifact>) returns (r: Status)
      requires Valid() && order == Order() && DistinctTargets(order) && manifest !in visible
      modifies this
      ensures Valid() && Within(old(visible), visible)
      ensures r.Done? ==> encoded <= MAX_MANIFEST_BYTES
                          && forall a :: a in order && a.target in old(visible) ==> Exact(old(visible), a)
      ensures r.Refused? ==> encoded > MAX_MANIFEST_BYTES || exists a :: a in order && a.target in old(visible) && !Exact(old(visible), a)
      ensures r.Done? ==> Complete(visible, order, manifest, ManifestFile()) && durable == visible
      ensures Secured(old(visible), old(durable), order) ==> Covered(visible, durable, order, manifest)
      ensures calm ==> !r.Killed?
      ensures Wrote(r, Publications(old(visible), order, |order|) + [Put(manifest, ManifestFile()), Fsync(manifest), Flush])
    {
      hide Grown, Guarded, Untouched, ModesValid, Play, Publications, HasAll, Targets, Covered, Complete, Exact, DistinctTargets;
      ghost var artifacts := Publications(old(visible), order, |order|);
      ghost var last := [Put(manifest, ManifestFile()), Fsync(manifest), Flush];
      AbsentFromBase(manifest);
      r := PublishArtifacts(order);
      ExtendsTo(old(log), [], log, artifacts, artifacts + last);
      NoManifestYet(old(visible), visible, durable, order, manifest);
      if !r.Done? { return; }
      r := Conclude(order);
      ExtendsTo(old(log), artifacts, log, last, artifacts + last);
    }

    /** main without --verify-installed.  An existing file is never changed; a run refuses exactly the trees that
        mix generations, and, unless it is killed, completes on all others; it has then installed everything,
        durably, the manifest last.  Whenever it is killed it has made the first of exactly these writes. */
    method Run() returns (r: Status)
      requires Valid()
      modifies this
      ensures Valid() && Within(old(visible), visible)
      ensures r.Done? ==> Acceptable(old(visible), Order(), manifest, encoded)
      ensures r.Refused? ==> !Acceptable(old(visible), Order(), manifest, encoded)
      ensures r.Done? && manifest in old(visible) ==> visible == old(visible) && durable == old(durable)
      ensures r.Done? && manifest !in old(visible) ==>
                Complete(visible, Order(), manifest, ManifestFile()) && durable == visible
      ensures r.Done? && (manifest in old(visible) || (Order() != [] && !Targets(Order(), manifest))) ==>
                Acceptable(visible, Order(), manifest, encoded)
      ensures manifest !in old(visible) && Secured(old(visible), old(durable), Order()) ==>
                Covered(visible, durable, Order(), manifest)
      ensures calm ==> (r.Done? <==> Acceptable(old(visible), Order(), manifest, encoded))
      ensures Wrote(r, Writes(old(visible), Order(), manifest, ManifestFile()))
    {
      hide Grown, Guarded, Untouched, ModesValid, Play, Publications, Complete;
      var ok, records, order := CanonicalRecords(prerequisites, dropins);
      if !ok { return Refused; }
      if manifest in visible {
        r := CheckEstablished(records);
      } else {
        r := PublishAll(order);
        if r.Done? { CompletedIsAccepted(visible, order, manifest, encoded); }
      }
    }

    /** verify_installed_manifest. */
    method VerifyInstalledManifest(expected: seq<Expected>) returns (ok: bool)
      ensures ok <==> Verifies(visible, manifest, expected)
    {
      if manifest !in visible { return false; }
      var file := visible[manifest];
      if file.mode != MANIFEST_MODE || !file.content.Document? || file.content.size > MAX_MANIFEST_BYTES { return false; }
      ok := ValidateManifestDocument(file.content.records);
      if !ok { return; }
      if |Members(expected)| != |expected| || Contract(file.content.records) != Members(expected) { return false; }
      ok := VerifyArtifacts(file.content.records);
    }
  }
}
