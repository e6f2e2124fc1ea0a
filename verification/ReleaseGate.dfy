/** The release gate: bounded search for the release of a tag, resumable upload of exactly twelve assets, and
    one-way publication, all against a remote that others may change between any two calls. */
module ReleaseGate {
  import R = ReleaseTypes

  type Name = string

  datatype State = Uploaded | Starter | Unsupported

  datatype Asset = Asset(id: nat, name: Name, size: nat, digest: R.Option<R.Sha256>, state: State)

  datatype Release = Release(
    id: nat, tag: string, target: string, draft: bool, prerelease: bool, immutable: bool, assets: seq<Asset>
  )

  /** A local file: its size and digest. */
  datatype Local = Local(size: nat, digest: R.Sha256)

  datatype Report = Report(id: nat, name: Name, local: Local)

  /** The persisted identity of one release; `names` are its twelve asset names. */
  datatype Identity = Identity(release: nat, tag: string, source: string, names: set<Name>, reports: seq<Report>)

  datatype Status = Done | Interrupted | Failed

  const ASSET_COUNT := 12
  const PAGE_SIZE := 100
  const MAX_PAGES := 100

  // ---- exact-tag search ----

  datatype Item = Item(id: int, tag: string)

  predicate WellFormed(items: seq<Item>) {
    && (forall i :: 0 <= i < |items| ==> items[i].id >= 1)
    && (forall i, k :: 0 <= i < k < |items| ==> items[i].id != items[k].id)
  }

  predicate OnlyTagged(items: seq<Item>, tag: string, at: nat) {
    && at < |items| && items[at].tag == tag
    && forall i :: 0 <= i < |items| && items[i].tag == tag ==> i == at
  }

  function Page(listing: seq<Item>, page: nat): seq<Item>
    requires page >= 1
  {
    var lo := (page - 1) * PAGE_SIZE;
    if lo >= |listing| then []
    else if lo + PAGE_SIZE >= |listing| then listing[lo..]
    else listing[lo..lo + PAGE_SIZE]
  }

  /** One more valid item keeps the loop variables true. */
  lemma SearchedOneMore(items: seq<Item>, item: Item, tag: string, seen: set<int>, matched: R.Option<nat>)
    requires Searched(items, tag, seen, matched)
    requires item.id >= 1 && item.id !in seen && (item.tag == tag ==> matched.None?)
    ensures Searched(items + [item], tag, seen + {item.id}, if item.tag == tag then R.Some(|items|) else matched)
  {
    var more := items + [item];
    assert forall i :: 0 <= i < |items| ==> more[i] == items[i];
    forall x ensures x in seen + {item.id} <==> exists i :: 0 <= i < |more| && more[i].id == x {
      if x == item.id { assert more[|items|].id == x; }
      if x in seen {
        var i :| 0 <= i < |items| && items[i].id == x;
        assert more[i].id == x;
      }
    }
  }

  /** One page of the search: fails on a malformed item, a repeated id or a second match. */
  method SearchPage(listing: seq<Item>, from: nat, items: seq<Item>, tag: string, seen: set<int>, matched: R.Option<nat>)
      returns (ok: bool, seen': set<int>, matched': R.Option<nat>)
    requires from + |items| <= |listing| && items == listing[from..from + |items|]
    requires Searched(listing[..from], tag, seen, matched)
    ensures ok <==> WellFormed(listing[..from + |items|]) && AtMostOne(listing[..from + |items|], tag)
    ensures ok ==> Searched(listing[..from + |items|], tag, seen', matched')
  {
    hide Searched, WellFormed, AtMostOne;
    seen', matched' := seen, matched;
    var index := 0;
    while index < |items|
      invariant 0 <= index <= |items|
      invariant Searched(listing[..from + index], tag, seen', matched')
    {
      var item := items[index];
      var at := from + index;
      assert listing[at] == item;
      if item.id < 1 || item.id in seen' || (item.tag == tag && matched'.Some?) {
        RejectedStaysRejected(listing, at, from + |items|, tag, seen', matched');
        return false, seen', matched';
      }
      SearchedOneMore(listing[..at], item, tag, seen', matched');
      assert listing[..at + 1] == listing[..at] + [item];
      seen' := seen' + {item.id};
      if item.tag == tag { matched' := R.Some(at); }
      index := index + 1;
    }
    SearchedIsClean(listing[..from + |items|], tag, seen', matched');
    ok := true;
  }

  lemma SearchedIsClean(items: seq<Item>, tag: string, seen: set<int>, matched: R.Option<nat>)
    requires Searched(items, tag, seen, matched)
    ensures WellFormed(items) && AtMostOne(items, tag)
  {
  }

  predicate AtMostOne(items: seq<Item>, tag: string) {
    forall i, k :: 0 <= i < k < |items| ==> !(items[i].tag == tag && items[k].tag == tag)
  }

  /** What the loop variables say about the prefix already searched. */
  ghost predicate Searched(items: seq<Item>, tag: string, seen: set<int>, matched: R.Option<nat>) {
    && WellFormed(items) && AtMostOne(items, tag)
    && (forall x :: x in seen <==> exists i :: 0 <= i < |items| && items[i].id == x)
    && (matched.Some? ==> OnlyTagged(items, tag, matched.value))
    && (matched.None? ==> forall i :: 0 <= i < |items| ==> items[i].tag != tag)
  }

  lemma RejectedStaysRejected(listing: seq<Item>, at: nat, to: nat, tag: string, seen: set<int>, matched: R.Option<nat>)
    requires at < to <= |listing| && Searched(listing[..at], tag, seen, matched)
    requires listing[at].id < 1 || listing[at].id in seen || (listing[at].tag == tag && matched.Some?)
    ensures !(WellFormed(listing[..to]) && AtMostOne(listing[..to], tag))
  {
  }

  /** resolve_release_by_exact_tag on a fixed listing: it returns a release exactly when that is the only one
      with the tag, every id is valid and distinct, and the listing is shorter than the bounded search. */
  method ResolveReleaseByExactTag(listing: seq<Item>, tag: string) returns (found: R.Option<nat>)
    ensures found.Some? <==>
            |listing| < PAGE_SIZE * MAX_PAGES && WellFormed(listing) && exists at :: OnlyTagged(listing, tag, at)
    ensures found.Some? ==> OnlyTagged(listing, tag, found.value)
  {
    hide Searched, WellFormed, AtMostOne, OnlyTagged;
    var seen: set<int>, matched: R.Option<nat> := {}, R.None;
    var page, complete := 1, false;
    NothingSearched(listing, tag);
    while page <= MAX_PAGES && !complete
      invariant 1 <= page <= MAX_PAGES + 1
      invariant !complete ==> (page - 1) * PAGE_SIZE <= |listing|
                              && Searched(listing[..(page - 1) * PAGE_SIZE], tag, seen, matched)
      invariant complete ==> |listing| < PAGE_SIZE * MAX_PAGES && Searched(listing, tag, seen, matched)
      decreases MAX_PAGES + 1 - page, !complete
    {
      var from := (page - 1) * PAGE_SIZE;
      var items := Page(listing, page);
      var ok;
      ok, seen, matched := SearchPage(listing, from, items, tag, seen, matched);
      if !ok {
        PrefixDecides(listing, from + |items|, tag);
        return R.None;
      }
      if |items| < PAGE_SIZE {
        assert listing[..from + |items|] == listing;
        complete := true;
      } else {
        page := page + 1;
      }
    }
    if !complete { return R.None; }
    SearchDecides(listing, tag, seen, matched);
    found := matched;
  }

  lemma NothingSearched(listing: seq<Item>, tag: string)
    ensures Searched(listing[..0], tag, {}, R.None)
  {
  }

  lemma SearchDecides(listing: seq<Item>, tag: string, seen: set<int>, matched: R.Option<nat>)
    requires Searched(listing, tag, seen, matched)
    ensures WellFormed(listing) && (matched.Some? <==> exists at :: OnlyTagged(listing, tag, at))
    ensures matched.Some? ==> OnlyTagged(listing, tag, matched.value)
  {
  }

  lemma PrefixDecides(listing: seq<Item>, to: nat, tag: string)
    requires to <= |listing| && !(WellFormed(listing[..to]) && AtMostOne(listing[..to], tag))
    ensures !(WellFormed(listing) && exists at :: OnlyTagged(listing, tag, at))
  {
  }

  // ---- assets and releases ----

  predicate AssetValid(a: Asset) {
    a.id >= 1 && !a.state.Unsupported? && (a.state.Uploaded? ==> a.size >= 1 && a.digest.Some?)
  }

  predicate Distinct(assets: seq<Asset>) {
    forall i, k :: 0 <= i < k < |assets| ==> assets[i].name != assets[k].name && assets[i].id != assets[k].id
  }

  /** What parse_assets accepts. */
  predicate AssetsValid(assets: seq<Asset>, names: set<Name>) {
    && |assets| <= ASSET_COUNT && Distinct(assets)
    && forall a :: a in assets ==> AssetValid(a) && a.name in names
  }

  function ByName(assets: seq<Asset>): (m: map<Name, Asset>)
    requires Distinct(assets)
    ensures forall n :: n in m ==> m[n] in assets && m[n].name == n
    ensures forall a :: a in assets ==> a.name in m && m[a.name] == a
  {
    map a | a in assets :: a.name := a
  }

  /** parse_asset. */
  method ParseAsset(a: Asset) returns (ok: bool)
    ensures ok <==> AssetValid(a)
  {
    if a.id < 1 { return false; }
    match a.state {
      case Unsupported => return false;
      case Uploaded => if a.size < 1 || a.digest.None? { return false; }
      case Starter =>
    }
    return true;
  }

  /** parse_assets. */
  method ParseAssets(assets: seq<Asset>, names: set<Name>) returns (ok: bool, found: map<Name, Asset>)
    ensures ok <==> AssetsValid(assets, names)
    ensures ok ==> found == ByName(assets)
  {
    hide Distinct, IdsOf;
    found := map[];
    if |assets| > ASSET_COUNT { TooManyIsInvalid(assets, names); return false, found; }
    NothingIsValid(assets, names);
    var ids: set<nat> := {};
    var index := 0;
    while index < |assets|
      invariant 0 <= index <= |assets|
      invariant AssetsValid(assets[..index], names) && found == ByName(assets[..index])
      invariant ids == IdsOf(assets[..index])
    {
      var a := assets[index];
      var complete := ParseAsset(a);
      if !complete || a.name !in names || a.name in found || a.id in ids {
        RepeatIsInvalid(assets, index, names, ids);
        return false, found;
      }
      ParsedOneMore(assets[..index], a, names);
      assert assets[..index + 1] == assets[..index] + [a];
      found := found[a.name := a];
      ids := ids + {a.id};
      index := index + 1;
    }
    assert assets[..|assets|] == assets;
    ok := true;
  }

  function IdsOf(assets: seq<Asset>): set<nat> {
    set a | a in assets :: a.id
  }

  lemma ParsedOneMore(assets: seq<Asset>, a: Asset, names: set<Name>)
    requires AssetsValid(assets, names) && |assets| < ASSET_COUNT
    requires AssetValid(a) && a.name in names && a.name !in ByName(assets) && a.id !in IdsOf(assets)
    ensures AssetsValid(assets + [a], names)
    ensures ByName(assets + [a]) == ByName(assets)[a.name := a]
    ensures IdsOf(assets + [a]) == IdsOf(assets) + {a.id}
  {
  }

  lemma TooManyIsInvalid(assets: seq<Asset>, names: set<Name>)
    requires |assets| > ASSET_COUNT
    ensures !AssetsValid(assets, names)
  {
  }

  lemma NothingIsValid(assets: seq<Asset>, names: set<Name>)
    ensures AssetsValid(assets[..0], names) && ByName(assets[..0]) == map[] && IdsOf(assets[..0]) == {}
  {
  }

  lemma RepeatIsInvalid(assets: seq<Asset>, at: nat, names: set<Name>, ids: set<nat>)
    requires at < |assets| && AssetsValid(assets[..at], names) && ids == IdsOf(assets[..at])
    requires !AssetValid(assets[at]) || assets[at].name !in names || assets[at].name in ByName(assets[..at]) || assets[at].id in ids
    ensures !AssetsValid(assets, names)
  {
  }

  datatype Life = Draft | Published

  /** The state of a release that has one. */
  function Stage(r: Release): R.Option<Life> {
    if r.draft && r.prerelease && !r.immutable then R.Some(Draft)
    else if !r.draft && r.prerelease && r.immutable then R.Some(Published)
    else R.None
  }

  /** release_state, where it does not raise. */
  method ReleaseState(r: Release) returns (life: R.Option<Life>)
    ensures life == Stage(r)
  {
    if !r.prerelease || r.draft == r.immutable { return R.None; }
    return if r.draft then R.Some(Draft) else R.Some(Published);
  }

  predicate ReportPresent(assets: seq<Asset>, report: Report) {
    Asset(report.id, report.name, report.local.size, R.Some(report.local.digest), Uploaded) in assets
  }

  /** What validate_release_base accepts. */
  predicate BaseValid(r: Release, identity: Identity, states: set<Life>) {
    && r.id == identity.release && r.tag == identity.tag && r.target == identity.source
    && Stage(r).Some? && Stage(r).value in states
    && AssetsValid(r.assets, identity.names)
    && forall report :: report in identity.reports ==> ReportPresent(r.assets, report)
  }

  /** validate_release_base. */
  method ValidateReleaseBase(r: Release, identity: Identity, states: set<Life>) returns (ok: bool, assets: map<Name, Asset>)
    ensures ok <==> BaseValid(r, identity, states)
    ensures ok ==> assets == ByName(r.assets)
  {
    assets := map[];
    if r.id != identity.release || r.tag != identity.tag || r.target != identity.source { return false, assets; }
    var stage := ReleaseState(r);
    if stage.None? || stage.value !in states { return false, assets; }
    ok, assets := ParseAssets(r.assets, identity.names);
    if !ok { return; }
    var index := 0;
    while index < |identity.reports|
      invariant 0 <= index <= |identity.reports|
      invariant forall i :: 0 <= i < index ==> ReportPresent(r.assets, identity.reports[i])
    {
      var report := identity.reports[index];
      if report.name !in assets
         || assets[report.name] != Asset(report.id, report.name, report.local.size, R.Some(report.local.digest), Uploaded) {
        assert !ReportPresent(r.assets, report);
        return false, assets;
      }
      index := index + 1;
    }
  }

  predicate Matches(a: Asset, local: Local) {
    a.state.Uploaded? && a.size == local.size && a.digest == R.Some(local.digest)
  }

  /** require_exact_assets. */
  predicate ExactAssets(assets: map<Name, Asset>, expected: map<Name, Local>) {
    && assets.Keys == expected.Keys && |assets| == ASSET_COUNT
    && forall n :: n in expected ==> Matches(assets[n], expected[n])
  }

  /** require_exact_assets. */
  method RequireExactAssets(assets: map<Name, Asset>, expected: map<Name, Local>) returns (ok: bool)
    ensures ok <==> ExactAssets(assets, expected)
  {
    if assets.Keys != expected.Keys || |assets| != ASSET_COUNT { return false; }
    var todo := expected.Keys;
    while todo != {}
      invariant todo <= expected.Keys
      invariant forall n :: n in expected && n !in todo ==> Matches(assets[n], expected[n])
    {
      var name :| name in todo;
      var remote, local := assets[name], expected[name];
      if !remote.state.Uploaded? || remote.size != local.size || remote.digest != R.Some(local.digest) { return false; }
      todo := todo - {name};
    }
    return true;
  }

  /** What the gate takes for the local files determines them: a release is exact for one inventory only, and carries
      nothing but complete assets with the digest of the local bytes. */
  lemma ExactDeterminesFiles(assets: map<Name, Asset>, e1: map<Name, Local>, e2: map<Name, Local>)
    requires ExactAssets(assets, e1) && ExactAssets(assets, e2)
    ensures e1 == e2
    ensures forall n :: n in assets ==>
              n in e1 && assets[n].state.Uploaded? && assets[n].digest == R.Some(e1[n].digest) && assets[n].size == e1[n].size
  {
    forall n | n in e1 ensures n in e2 && e1[n] == e2[n] {
      assert n in assets.Keys;
      assert Matches(assets[n], e1[n]) && Matches(assets[n], e2[n]);
    }
  }

  /** So does a repairable draft, for every complete asset it carries. */
  lemma RepairableDeterminesFiles(r: Release, identity: Identity, e1: map<Name, Local>, e2: map<Name, Local>, a: Asset)
    requires Repairable(r, identity, e1) && Repairable(r, identity, e2) && a in r.assets && a.state.Uploaded?
    ensures a.name in e1 && a.name in e2 && e1[a.name] == e2[a.name]
    ensures a.digest == R.Some(e1[a.name].digest) && a.size == e1[a.name].size
  {
    assert Matches(a, e1[a.name]) && Matches(a, e2[a.name]);
  }

  predicate Named(assets: seq<Asset>, n: Name) {
    exists a :: a in assets && a.name == n
  }

  /** The names whose asset is not yet the local file. */
  function Pending(r: Release, expected: map<Name, Local>): set<Name> {
    set n | n in expected && !exists a :: a in r.assets && a.name == n && Matches(a, expected[n])
  }

  /** A draft that upload can finish: nothing complete on it differs from the local files. */
  predicate Repairable(r: Release, identity: Identity, expected: map<Name, Local>) {
    && BaseValid(r, identity, {Draft})
    && forall a :: a in r.assets && a.state.Uploaded? ==> a.name in expected && Matches(a, expected[a.name])
  }

  predicate KeepsUploaded(before: Release, after: Release) {
    && after == before.(assets := after.assets)
    && forall a :: a in before.assets && a.state.Uploaded? ==> a in after.assets
  }

  function WithoutId(assets: seq<Asset>, id: nat): (r: seq<Asset>)
    ensures forall a :: a in r <==> a in assets && a.id != id
    ensures |r| <= |assets|
  {
    if assets == [] then []
    else if assets[0].id == id then WithoutId(assets[1..], id)
    else [assets[0]] + WithoutId(assets[1..], id)
  }

  lemma {:induction false} WithoutIdStaysDistinct(assets: seq<Asset>, id: nat)
    requires Distinct(assets)
    ensures Distinct(WithoutId(assets, id))
  {
    if assets != [] {
      WithoutIdStaysDistinct(assets[1..], id);
      var rest := WithoutId(assets[1..], id);
      forall i | 0 <= i < |rest| ensures rest[i].name != assets[0].name && rest[i].id != assets[0].id {
        assert rest[i] in assets[1..];
      }
    }
  }

  /** Removing a starter keeps a draft repairable and every complete asset in place. */
  lemma CleanupKeepsRepairable(r: Release, identity: Identity, expected: map<Name, Local>, a: Asset)
    requires Repairable(r, identity, expected) && a in r.assets && a.state.Starter?
    ensures var after := r.(assets := WithoutId(r.assets, a.id));
            Repairable(after, identity, expected) && KeepsUploaded(r, after) && Pending(after, expected) == Pending(r, expected)
            && !Named(after.assets, a.name)
  {
    var after := r.(assets := WithoutId(r.assets, a.id));
    WithoutIdStaysDistinct(r.assets, a.id);
    forall b | b in r.assets && b.state.Uploaded? ensures b in after.assets {
      DifferentIds(r.assets, a, b);
    }
    forall b | b in r.assets && b.name == a.name ensures b == a {
      if b != a { DifferentIds(r.assets, a, b); }
    }
    assert Pending(after, expected) == Pending(r, expected);
  }

  lemma DifferentIds(assets: seq<Asset>, a: Asset, b: Asset)
    requires Distinct(assets) && a in assets && b in assets && a != b
    ensures a.id != b.id && a.name != b.name
  {
  }

  /** So does adding an asset under an absent name, as long as a complete one is the local file. */
  lemma AdditionKeepsRepairable(r: Release, identity: Identity, expected: map<Name, Local>, a: Asset)
    requires Repairable(r, identity, expected) && AssetValid(a) && a.name in expected && expected.Keys == identity.names
    requires !Named(r.assets, a.name) && (forall b :: b in r.assets ==> b.id != a.id)
    requires a.state.Uploaded? ==> Matches(a, expected[a.name])
    requires |identity.names| == ASSET_COUNT
    ensures var after := r.(assets := r.assets + [a]);
            Repairable(after, identity, expected) && KeepsUploaded(r, after)
            && Pending(after, expected) == if a.state.Uploaded? then Pending(r, expected) - {a.name} else Pending(r, expected)
  {
    var after := r.(assets := r.assets + [a]);
    FewerThanNames(r.assets, identity.names - {a.name});
    assert Distinct(after.assets);
    assert Pending(after, expected) == if a.state.Uploaded? then Pending(r, expected) - {a.name} else Pending(r, expected);
  }

  lemma {:induction false} FewerThanNames(assets: seq<Asset>, names: set<Name>)
    requires Distinct(assets) && forall a :: a in assets ==> a.name in names
    ensures |assets| <= |names|
  {
    if assets != [] {
      var n := |assets| - 1;
      assert forall i :: 0 <= i < n ==> assets[i].name != assets[n].name;
      FewerThanNames(assets[..n], names - {assets[n].name});
    }
  }

  // ---- the gate and its remote ----

  /** A change the gate asks the remote for, with what it had last observed. */
  datatype Write =
    | DeleteAsset(observed: Asset)
    | UploadAsset(name: Name, seen: Release)
    | PublishRelease(seen: Release)

  predicate UploadWrite(w: Write, expected: map<Name, Local>) {
    match w
    case DeleteAsset(a) => a.state.Starter? && a.name in expected
    case UploadAsset(n, seen) => n in expected && Stage(seen) == R.Some(Draft) && !Named(seen.assets, n)
    case PublishRelease(_) => false
  }

  class Gate {
    // the remote, which others may change between any two calls unless the gate has it to itself
    var remote: Release
    var commit: string
    var immutableSetting: bool

    const exclusive: bool
    // every request is answered, and every downloaded contract and attestation checks out
    const calm: bool
    const identity: Identity
    // the changes asked for, and the releases whose content was downloaded, or attested, and checked out
    ghost var log: seq<Write>
    ghost var checked: seq<Release>
    // every answer about the release, in order
    ghost var observed: seq<Release>

    constructor (i: Identity, r: Release, c: string, setting: bool, alone: bool, calm: bool)
      ensures identity == i && remote == r && commit == c && immutableSetting == setting && exclusive == alone && log == []
      ensures this.calm == calm
    {
      identity, remote, commit, immutableSetting, exclusive, log, checked, observed := i, r, c, setting, alone, [], [], [];
      this.calm := calm;
    }

    /** The tag still resolves to the source and immutable releases are on. */
    predicate Healthy()
      reads this
    {
      exclusive && commit == identity.source && immutableSetting
    }

    /** Time passes between two calls. */
    method Meanwhile()
      modifies this`remote, this`commit, this`immutableSetting
      ensures exclusive ==> remote == old(remote) && commit == old(commit) && immutableSetting == old(immutableSetting)
    {
      if !exclusive {
        var r: Release, c: string, b: bool := *, *, *;
        remote, commit, immutableSetting := r, c, b;
      }
    }

    /** A request that may be cut off. */
    method Request() returns (s: Status)
      ensures s.Done? || (s.Interrupted? && !calm)
    {
      s := Done;
      if !calm { if * { s := Interrupted; } }
    }

    /** GET of the release. */
    method Get() returns (s: Status, r: Release)
      modifies this`remote, this`commit, this`immutableSetting, this`observed
      ensures s.Done? || (s.Interrupted? && !calm)
      ensures observed == old(observed) + if s.Done? then [r] else []
      ensures exclusive ==> remote == old(remote) && commit == old(commit) && immutableSetting == old(immutableSetting)
      ensures exclusive ==> r == remote
    {
      Meanwhile();
      s := Request();
      r := remote;
      if s.Done? { observed := observed + [r]; }
    }

    /** At least `n` answers since then, all about a valid release in one of the states. */
    ghost predicate Observed(since: nat, n: nat, states: set<Life>)
      reads this
    {
      |observed| >= since + n && forall k :: since <= k < |observed| ==> BaseValid(observed[k], identity, states)
    }

    /** Downloads, local contracts and attestations of an observed release, which may fail. */
    method CheckContent(seen: Release) returns (s: Status)
      modifies this`checked
      ensures s.Done? || (s.Failed? && !calm)
      ensures checked == old(checked) + if s.Done? then [seen] else []
    {
      s := Done;
      if !calm { if * { s := Failed; } }
      if s.Done? { checked := checked + [seen]; }
    }

    /** anchor: the exact release, its tag, and the release again, unchanged. */
    method Anchor(states: set<Life>) returns (s: Status, r: Release, assets: map<Name, Asset>)
      modifies this`remote, this`commit, this`immutableSetting, this`observed
      ensures old(observed) <= observed && (s.Done? ==> Observed(|old(observed)|, 2, states) && |observed| == |old(observed)| + 2)
      ensures s.Done? ==>
                var first := observed[|old(observed)|];
                r == observed[|observed| - 1] && ByName(first.assets) == assets && Stage(first) == Stage(r)
      ensures s.Done? ==> BaseValid(r, identity, states) && assets == ByName(r.assets)
      ensures exclusive ==> remote == old(remote) && commit == old(commit) && immutableSetting == old(immutableSetting)
      ensures exclusive && s.Done? ==> r == remote && commit == identity.source
      ensures Healthy() && BaseValid(remote, identity, states) ==> !s.Failed?
      ensures calm ==> !s.Interrupted?
    {
      assets := map[];
      s, r := Get();
      if !s.Done? { return; }
      var ok, first := ValidateReleaseBase(r, identity, states);
      if !ok { return Failed, r, assets; }
      Meanwhile();
      s := Request();
      if !s.Done? { return; }
      if commit != identity.source { return Failed, r, assets; }
      var again;
      s, again := Get();
      if !s.Done? { return; }
      ok, assets := ValidateReleaseBase(again, identity, states);
      if !ok || Stage(r) != Stage(again) || first != assets { return Failed, r, assets; }
      return Done, again, assets;
    }

    /** recheck_immutable_setting. */
    method RecheckImmutableSetting(states: set<Life>) returns (s: Status)
      modifies this`remote, this`commit, this`immutableSetting, this`observed
      ensures old(observed) <= observed && (s.Done? ==> Observed(|old(observed)|, 4, states))
      ensures exclusive ==> remote == old(remote) && commit == old(commit) && immutableSetting == old(immutableSetting)
      ensures Healthy() && BaseValid(remote, identity, states) ==> !s.Failed?
      ensures exclusive && s.Done? ==> immutableSetting
      ensures calm ==> !s.Interrupted?
    {
      var r, assets;
      s, r, assets := Anchor(states);
      if !s.Done? { return; }
      Meanwhile();
      s := Request();
      if !s.Done? { return; }
      if !immutableSetting { return Failed; }
      s, r, assets := Anchor(states);
    }

    /** DELETE of one asset id. */
    method Delete(observed: Asset) returns (s: Status)
      modifies this
      ensures log == old(log) + [DeleteAsset(observed)] && !s.Failed?
      ensures exclusive ==> commit == old(commit) && immutableSetting == old(immutableSetting)
      ensures exclusive ==> remote == old(remote)
                            || remote == old(remote).(assets := WithoutId(old(remote).assets, observed.id))
      ensures exclusive && s.Done? ==> remote.assets == WithoutId(old(remote).assets, observed.id)
      ensures calm ==> s.Done?
    {
      Meanwhile();
      log := log + [DeleteAsset(observed)];
      s := Request();
      if !s.Done? { return; }
      remote := remote.(assets := WithoutId(remote.assets, observed.id));
      s := Request();
    }

    /** The id the server gives a new asset. */
    method NewId() returns (id: nat)
      ensures id >= 1 && forall a :: a in remote.assets ==> a.id != id
    {
      id := *;
      if id < 1 || exists a :: a in remote.assets && a.id == id { id := FreshId(remote.assets); }
    }

    /** Upload of one local file.  The server may be interrupted before it creates the asset, while the asset is
        a starter, or after it is complete; it refuses a name that is taken. */
    method Send(name: Name, local: Local, seen: Release) returns (s: Status, response: Asset)
      modifies this
      ensures log == old(log) + [UploadAsset(name, seen)]
      ensures exclusive ==> commit == old(commit) && immutableSetting == old(immutableSetting)
      ensures exclusive && !Named(old(remote).assets, name) && local.size >= 1 ==>
                && !s.Failed?
                && (remote == old(remote)
                    || (exists a :: remote == old(remote).(assets := old(remote).assets + [a]) && Fresh(old(remote).assets, a, name)
                                    && (a.state.Starter? || Matches(a, local))
                                    && (s.Done? ==> response == a && Matches(a, local))))
                && (s.Done? ==> remote != old(remote))
      ensures calm ==> !s.Interrupted?
    {
      Meanwhile();
      log := log + [UploadAsset(name, seen)];
      response := Asset(1, name, local.size, R.Some(local.digest), Uploaded);
      s := Request();
      if !s.Done? { return; }
      var id := NewId();
      response := Asset(id, name, local.size, R.Some(local.digest), Uploaded);
      if Named(remote.assets, name) { return Failed, response; }
      s := Request();
      if !s.Done? {
        var partial: nat := *;
        remote := remote.(assets := remote.assets + [Asset(id, name, partial, R.None, Starter)]);
        return;
      }
      remote := remote.(assets := remote.assets + [response]);
      s := Request();
      if !exclusive {
        var other: Asset := *;
        response := other;
      }
    }

    static predicate Fresh(assets: seq<Asset>, a: Asset, name: Name) {
      a.name == name && AssetValid(a) && forall b :: b in assets ==> b.id != a.id
    }

    static function FreshId(assets: seq<Asset>): (id: nat)
      ensures id >= 1 && forall a :: a in assets ==> a.id < id
    {
      if assets == [] then 1
      else
        var rest := FreshId(assets[1..]);
        if assets[0].id < rest then rest else assets[0].id + 1
    }

    /** The healthy draft a run of the tool can finish on its own. */
    predicate Mendable(expected: map<Name, Local>)
      reads this
    {
      Healthy() && Repairable(remote, identity, expected)
    }

    /** DELETE of a starter that was just seen; on a mendable draft nothing else changes. */
    method DeleteSeen(observed: Asset, expected: map<Name, Local>, ghost mends: bool) returns (s: Status)
      requires observed.state.Starter? && observed.name in expected
      requires mends ==> Mendable(expected) && observed in remote.assets
      modifies this
      ensures log == old(log) + [DeleteAsset(observed)] && !s.Failed? && (calm ==> s.Done?)
      ensures mends ==>
                && Mendable(expected) && KeepsUploaded(old(remote), remote)
                && Pending(remote, expected) == Pending(old(remote), expected)
                && Others(old(remote).assets, remote.assets, observed.name)
                && (s.Done? ==> !Named(remote.assets, observed.name))
    {
      hide Repairable, KeepsUploaded, Pending, BaseValid, Named, Others;
      ghost var before := remote;
      s := Delete(observed);
      if mends {
        KeepsItself(before, observed.name);
        MendableIsDistinct(before, identity, expected);
        CleanupKeepsRepairable(before, identity, expected, observed);
        CleanupSparesOthers(before.assets, observed);
      }
    }

    /** One starter asset is removed by id, after it was seen unchanged, and seen gone. */
    method RemoveStarter(observed: Asset, expected: map<Name, Local>, ghost mends: bool) returns (s: Status, seen: Release)
      requires observed.state.Starter? && observed.name in expected
      requires mends ==> Mendable(expected) && observed in remote.assets
      modifies this
      ensures old(log) <= log && forall i :: |old(log)| <= i < |log| ==> UploadWrite(log[i], expected)
      ensures s.Done? ==> Stage(seen) == R.Some(Draft) && !Named(seen.assets, observed.name)
      ensures mends ==>
                && Mendable(expected) && KeepsUploaded(old(remote), remote)
                && Pending(remote, expected) == Pending(old(remote), expected)
                && Others(old(remote).assets, remote.assets, observed.name)
                && !s.Failed? && (s.Done? ==> seen == remote)
      ensures calm ==> !s.Interrupted?
    {
      hide Repairable, KeepsUploaded, Pending, BaseValid, Others;
      var assets;
      if mends {
        KeepsItself(remote, observed.name);
        MendableIsDraft(expected);
      }
      s, seen, assets := Anchor({Draft});
      if !s.Done? { return; }
      if observed.name !in assets || assets[observed.name] != observed {
        if mends { MendableIsDistinct(remote, identity, expected); }
        return Failed, seen;
      }
      s := DeleteSeen(observed, expected, mends);
      if !s.Done? { return; }
      if mends {
        MendableIsDraft(expected);
      }
      s, seen, assets := Anchor({Draft});
      if !s.Done? { return; }
      DraftOnly(seen, identity);
      if observed.name in assets { return Failed, seen; }
    }

    static lemma MendableIsDistinct(r: Release, i: Identity, expected: map<Name, Local>)
      requires Repairable(r, i, expected)
      ensures Distinct(r.assets)
    {
    }

    lemma MendableIsDraft(expected: map<Name, Local>)
      requires Mendable(expected)
      ensures BaseValid(remote, identity, {Draft})
    {
    }

    static lemma DraftOnly(r: Release, i: Identity)
      requires BaseValid(r, i, {Draft})
      ensures Stage(r) == R.Some(Draft) && Distinct(r.assets)
    {
    }

    static lemma KeepsItself(r: Release, name: Name)
      ensures KeepsUploaded(r, r) && Others(r.assets, r.assets, name)
    {
    }

    /** Assets under other names are the same. */
    static ghost predicate Others(before: seq<Asset>, after: seq<Asset>, name: Name) {
      forall a: Asset :: a.name != name ==> (a in before <==> a in after)
    }

    static lemma CleanupSparesOthers(assets: seq<Asset>, a: Asset)
      requires Distinct(assets) && a in assets
      ensures Others(assets, WithoutId(assets, a.id), a.name)
    {
    }

    /** One absent asset is uploaded and seen exactly as the response described it. */
    method SendAbsent(name: Name, expected: map<Name, Local>, seen: Release, ghost mends: bool) returns (s: Status)
      requires name in expected && Stage(seen) == R.Some(Draft) && !Named(seen.assets, name)
      requires mends ==> Mendable(expected) && Fits(expected) && !Named(remote.assets, name)
      modifies this
      ensures old(log) <= log && forall i :: |old(log)| <= i < |log| ==> UploadWrite(log[i], expected)
      ensures mends ==>
                && Mendable(expected) && KeepsUploaded(old(remote), remote) && !s.Failed?
                && Others(old(remote).assets, remote.assets, name)
                && Pending(remote, expected) <= Pending(old(remote), expected)
                && (s.Done? ==> Pending(remote, expected) == Pending(old(remote), expected) - {name})
      ensures s.Done? ==> observed != [] && SeenComplete(observed[|observed| - 1], name, expected)
      ensures calm ==> !s.Interrupted?
    {
      hide Repairable, KeepsUploaded, Pending, BaseValid, Named;
      var response;
      s, response := Send(name, expected[name], seen);
      if mends {
        KeepsItself(remote, name);
        if remote != old(remote) {
          var a :| remote == old(remote).(assets := old(remote).assets + [a]) && Fresh(old(remote).assets, a, name)
                   && (a.state.Starter? || Matches(a, expected[name]))
                   && (s.Done? ==> response == a && Matches(a, expected[name]));
          AdditionKeepsRepairable(old(remote), identity, expected, a);
        }
        MendableIsDraft(expected);
      }
      if !s.Done? { return; }
      var complete := ParseAsset(response);
      if response.name != name || !complete || !response.state.Uploaded?
         || response.size != expected[name].size || response.digest != R.Some(expected[name].digest) { return Failed; }
      var r, assets;
      s, r, assets := Anchor({Draft});
      if !s.Done? { return; }
      if name !in assets || assets[name] != response { return Failed; }
    }

    /** The file is on the release, complete. */
    static ghost predicate SeenComplete(r: Release, name: Name, expected: map<Name, Local>)
      requires name in expected
    {
      exists a :: a in r.assets && a.name == name && Matches(a, expected[name])
    }

    /** What the local inventory guarantees: one non-empty file per asset name. */
    predicate Fits(expected: map<Name, Local>) {
      expected.Keys == identity.names && |identity.names| == ASSET_COUNT && forall n :: n in expected ==> expected[n].size >= 1
    }

    /** Classification of every expected name; fails on the first complete asset that is not the local file. */
    method Classify(assets: map<Name, Asset>, expected: map<Name, Local>) returns (ok: bool, actions: set<Name>)
      ensures ok <==> forall n :: n in expected && n in assets && assets[n].state.Uploaded? ==> Matches(assets[n], expected[n])
      ensures ok ==> actions == set n | n in expected && !(n in assets && assets[n].state.Uploaded?)
    {
      actions := {};
      var todo := expected.Keys;
      while todo != {}
        invariant todo <= expected.Keys
        invariant forall n :: n in expected && n !in todo && n in assets && assets[n].state.Uploaded? ==> Matches(assets[n], expected[n])
        invariant actions == set n | n in expected && n !in todo && !(n in assets && assets[n].state.Uploaded?)
      {
        var name :| name in todo;
        if name in assets && assets[name].state.Uploaded? {
          if assets[name].size != expected[name].size || assets[name].digest != R.Some(expected[name].digest) {
            return false, actions;
          }
        } else {
          actions := actions + {name};
        }
        todo := todo - {name};
      }
      ok := true;
    }

    /** One action of command_upload: a starter is removed first, an absent asset must still be absent. */
    method Repair(name: Name, observed: R.Option<Asset>, expected: map<Name, Local>, ghost mends: bool) returns (s: Status)
      requires name in expected && (observed.Some? ==> observed.value.name == name && observed.value.state.Starter?)
      requires mends ==> Mendable(expected) && Fits(expected)
      requires mends ==> if observed.Some? then observed.value in remote.assets else !Named(remote.assets, name)
      modifies this
      ensures old(log) <= log && forall i :: |old(log)| <= i < |log| ==> UploadWrite(log[i], expected)
      ensures mends ==>
                && Mendable(expected) && KeepsUploaded(old(remote), remote) && !s.Failed?
                && Others(old(remote).assets, remote.assets, name)
                && name in Pending(old(remote), expected) && Pending(remote, expected) <= Pending(old(remote), expected)
                && (s.Done? ==> Pending(remote, expected) == Pending(old(remote), expected) - {name})
      ensures calm ==> !s.Interrupted?
    {
      hide Repairable, KeepsUploaded, Pending, BaseValid, Others, Named;
      if mends { UnfinishedIsPending(remote, identity, name, observed, expected); }
      ghost var before := remote;
      var seen;
      if observed.Some? {
        s, seen := RemoveStarter(observed.value, expected, mends);
        if !s.Done? { return; }
      } else {
        var assets;
        if mends { KeepsItself(remote, name); MendableIsDraft(expected); }
        s, seen, assets := Anchor({Draft});
        if !s.Done? { return; }
        DraftOnly(seen, identity);
        AbsentIsUnnamed(seen.assets, name);
        if name in assets { return Failed; }
      }
      ghost var middle := remote;
      s := SendAbsent(name, expected, seen, mends);
      if mends {
        KeepsThrough(before, middle, remote, name);
      }
    }

    static lemma UnfinishedIsPending(r: Release, i: Identity, name: Name, observed: R.Option<Asset>, expected: map<Name, Local>)
      requires Repairable(r, i, expected) && name in expected
      requires if observed.Some? then observed.value in r.assets && observed.value.name == name && observed.value.state.Starter?
               else !Named(r.assets, name)
      ensures name in Pending(r, expected)
    {
    }

    static lemma AbsentIsUnnamed(assets: seq<Asset>, name: Name)
      requires Distinct(assets)
      ensures name in ByName(assets) <==> Named(assets, name)
    {
    }

    static lemma KeepsThrough(a: Release, b: Release, c: Release, name: Name)
      requires KeepsUploaded(a, b) && KeepsUploaded(b, c)
      ensures KeepsUploaded(a, c)
      ensures Others(a.assets, b.assets, name) && Others(b.assets, c.assets, name) ==> Others(a.assets, c.assets, name)
    {
    }

    /** A release in one of the states is in the state it is in. */
    static lemma OneState(r: Release, i: Identity, states: set<Life>)
      requires BaseValid(r, i, states)
      ensures Stage(r).Some? && Stage(r).value in states && Distinct(r.assets) && BaseValid(r, i, {Stage(r).value})
      ensures forall q: Release :: BaseValid(q, i, {Stage(r).value}) ==> BaseValid(q, i, states) && Distinct(q.assets)
    {
    }

    /** download_and_validate_all: reads only; the last observation has exactly the local files. */
    method DownloadAndValidateAll(states: set<Life>, expected: map<Name, Local>) returns (s: Status, seen: Release)
      modifies this`remote, this`commit, this`immutableSetting, this`checked, this`observed
      ensures old(observed) <= observed
      ensures s.Done? ==> Observed(|old(observed)|, 4, states) && observed[|observed| - 1] == seen
      ensures old(checked) <= checked && (s.Done? ==> Checked(|old(checked)|, states, expected))
      ensures exclusive ==> remote == old(remote) && commit == old(commit) && immutableSetting == old(immutableSetting)
      ensures s.Done? ==> Exact(seen, states, expected) && (exclusive ==> seen == remote)
      ensures calm && old(Healthy() && Exact(remote, states, expected)) ==> s.Done?
    {
      hide BaseValid, ExactAssets;
      var assets;
      s, seen, assets := Anchor(states);
      if !s.Done? { return; }
      var exact := RequireExactAssets(assets, expected);
      if !exact { return Failed, seen; }
      OneState(seen, identity, states);
      var life := Stage(seen).value;
      // each download, contract and attestation is made between anchors
      s := CheckContent(seen);
      if !s.Done? { return; }
      assert Exact(checked[|old(checked)|], states, expected);
      Meanwhile();
      s, seen, assets := Anchor({life});
      if !s.Done? { return; }
      exact := RequireExactAssets(assets, expected);
      if !exact { return Failed, seen; }
    }

    /** Since then the content of a release with exactly the local files was checked. */
    ghost predicate Checked(since: nat, states: set<Life>, expected: map<Name, Local>)
      reads this
    {
      exists k :: since <= k < |checked| && Exact(checked[k], states, expected)
    }

    /** A valid release of one of the given states carrying exactly the local files. */
    predicate Exact(r: Release, states: set<Life>, expected: map<Name, Local>) {
      BaseValid(r, identity, states) && ExactAssets(ByName(r.assets), expected)
    }

    /** A complete asset under an expected name that is not the local file. */
    static predicate Mismatch(assets: map<Name, Asset>, expected: map<Name, Local>) {
      exists n :: n in expected && n in assets && assets[n].state.Uploaded? && !Matches(assets[n], expected[n])
    }

    static lemma MoreStates(r: Release, i: Identity)
      ensures BaseValid(r, i, {Draft}) || BaseValid(r, i, {Published}) <==> BaseValid(r, i, {Draft, Published})
      ensures BaseValid(r, i, {Draft, Published}) && Stage(r) == R.Some(Draft) ==> BaseValid(r, i, {Draft})
    {
    }

    /** On an exclusive, healthy draft the classification succeeds exactly when the draft is repairable, and the
        actions cover everything pending. */
    static lemma ClassifiedIsRepairable(r: Release, i: Identity, expected: map<Name, Local>, actions: set<Name>)
      requires BaseValid(r, i, {Draft}) && expected.Keys == i.names
      requires actions == set n | n in expected && !(n in ByName(r.assets) && ByName(r.assets)[n].state.Uploaded?)
      ensures Repairable(r, i, expected) <==> !Mismatch(ByName(r.assets), expected)
      ensures Repairable(r, i, expected) ==> Pending(r, expected) <= actions
      ensures forall n :: n in actions && n in ByName(r.assets) ==> ByName(r.assets)[n].state.Starter?
    {
    }

    /** The remote still holds what the classification saw under the names still to be handled. */
    ghost predicate Current(todo: set<Name>, classified: map<Name, Asset>)
      reads this
    {
      forall n :: n in todo ==> if n in classified then classified[n] in remote.assets else !Named(remote.assets, n)
    }

    static lemma StillCurrent(before: seq<Asset>, after: seq<Asset>, name: Name, n: Name, classified: map<Name, Asset>)
      requires Others(before, after, name) && n != name && (n in classified ==> classified[n].name == n)
      requires if n in classified then classified[n] in before else !Named(before, n)
      ensures if n in classified then classified[n] in after else !Named(after, n)
    {
    }

    /** The actions of one run, then the final check. */
    method RepairAll(actions: set<Name>, classified: map<Name, Asset>, expected: map<Name, Local>)
        returns (s: Status, seen: Release)
      requires Fits(expected) && actions <= expected.Keys
      requires forall n :: n in actions && n in classified ==> classified[n].name == n && classified[n].state.Starter?
      requires Mendable(expected) ==> Current(actions, classified) && Pending(remote, expected) <= actions
      modifies this
      ensures old(log) <= log && forall i :: |old(log)| <= i < |log| ==> UploadWrite(log[i], expected)
      ensures s.Done? ==> Exact(seen, {Draft}, expected)
      ensures old(Mendable(expected)) ==>
                && Mendable(expected) && KeepsUploaded(old(remote), remote) && !s.Failed?
                && Pending(remote, expected) <= Pending(old(remote), expected)
                && (s.Done? ==> Pending(remote, expected) == {} && seen == remote)
      ensures calm && old(Mendable(expected)) ==> s.Done?
    {
      hide Repairable, KeepsUploaded, Pending, BaseValid, Others, Named, UploadWrite, ExactAssets;
      ghost var mends := Mendable(expected);
      ghost var before := remote;
      KeepsItself(remote, "");
      seen := remote;
      var todo := actions;
      while todo != {}
        invariant todo <= actions
        invariant old(log) <= log && forall i :: |old(log)| <= i < |log| ==> UploadWrite(log[i], expected)
        invariant mends ==> Mendable(expected) && KeepsUploaded(before, remote) && Current(todo, classified)
                            && Pending(remote, expected) <= Pending(before, expected) && Pending(remote, expected) <= todo
      {
        var name :| name in todo;
        ghost var middle := remote;
        assert name in actions;
        s := Repair(name, if name in classified then R.Some(classified[name]) else R.None, expected, mends);
        if mends { KeepsThrough(before, middle, remote, name); }
        if !s.Done? { return; }
        todo := todo - {name};
        if mends {
          forall n | n in todo ensures if n in classified then classified[n] in remote.assets else !Named(remote.assets, n) {
            StillCurrent(middle.assets, remote.assets, name, n, classified);
          }
        }
      }
      if mends { MendableIsDraft(expected); }
      var assets;
      s, seen, assets := Anchor({Draft});
      if !s.Done? { return; }
      DraftOnly(seen, identity);
      if mends { NothingPendingIsExact(seen, identity, expected); }
      var exact := RequireExactAssets(assets, expected);
      if !exact { return Failed, seen; }
    }

    /** A draft with nothing pending carries exactly the local files. */
    static lemma NothingPendingIsExact(r: Release, i: Identity, expected: map<Name, Local>)
      requires BaseValid(r, i, {Draft}) && expected.Keys == i.names && |i.names| == ASSET_COUNT
      ensures Pending(r, expected) == {} <==> ExactAssets(ByName(r.assets), expected)
    {
      var m := ByName(r.assets);
      if Pending(r, expected) == {} {
        forall n | n in expected ensures n in m && Matches(m[n], expected[n]) {
          assert n !in Pending(r, expected);
        }
        assert m.Keys == expected.Keys;
        assert |m| == |m.Keys|;
      }
      if ExactAssets(m, expected) {
        forall n | n in expected ensures n !in Pending(r, expected) {
          assert m[n] in r.assets;
        }
      }
    }

    /** command_upload.  No write touches a complete asset or follows a mismatch; a run that has the remote to
        itself only ever makes progress, and ends, unless interrupted, with exactly the local files. */
    method Upload(expected: map<Name, Local>) returns (s: Status, seen: Release, classified: map<Name, Asset>)
      requires Fits(expected)
      modifies this
      ensures old(log) <= log && forall i :: |old(log)| <= i < |log| ==> UploadWrite(log[i], expected)
      ensures Mismatch(classified, expected) ==> log == old(log)
      ensures s.Done? ==> Exact(seen, {Draft, Published}, expected)
      ensures exclusive && !old(Mendable(expected)) ==> log == old(log) && remote == old(remote)
      ensures old(Mendable(expected)) ==>
                && Mendable(expected) && KeepsUploaded(old(remote), remote) && !s.Failed?
                && Pending(remote, expected) <= Pending(old(remote), expected)
                && (s.Done? ==> Pending(remote, expected) == {} && seen == remote)
      ensures calm && old(Mendable(expected)) ==> s.Done?
      ensures calm && old(Healthy() && Exact(remote, {Published}, expected)) ==> s.Done?
    {
      hide Repairable, KeepsUploaded, Pending, BaseValid, ExactAssets, Named, Mismatch, UploadWrite;
      if BaseValid(remote, identity, {Published}) { PublishedShape(remote, identity); }
      KeepsItself(remote, "");
      MoreStates(remote, identity);
      if Mendable(expected) { MendableIsDraft(expected); DraftOnly(remote, identity); }
      s, seen, classified := Anchor({Draft, Published});
      if !s.Done? { classified := map[]; return; }
      MoreStates(seen, identity);
      if Stage(seen) == R.Some(Published) {
        classified := map[];
        s, seen := DownloadAndValidateAll({Published}, expected);
        MoreStates(seen, identity);
        return;
      }
      s, seen := UploadToDraft(seen, classified, expected);
      MoreStates(seen, identity);
    }

    /** command_upload, once the release was seen as a draft with these assets. */
    method UploadToDraft(draft: Release, classified: map<Name, Asset>, expected: map<Name, Local>) returns (s: Status, seen: Release)
      requires Fits(expected) && BaseValid(draft, identity, {Draft}) && classified == ByName(draft.assets)
      requires exclusive ==> draft == remote && commit == identity.source
      modifies this
      ensures old(log) <= log && forall i :: |old(log)| <= i < |log| ==> UploadWrite(log[i], expected)
      ensures Mismatch(classified, expected) ==> log == old(log)
      ensures s.Done? ==> Exact(seen, {Draft}, expected)
      ensures exclusive && !old(Mendable(expected)) ==> log == old(log) && remote == old(remote)
      ensures old(Mendable(expected)) ==>
                && Mendable(expected) && KeepsUploaded(old(remote), remote) && !s.Failed?
                && Pending(remote, expected) <= Pending(old(remote), expected)
                && (s.Done? ==> Pending(remote, expected) == {} && seen == remote)
      ensures calm && old(Mendable(expected)) ==> s.Done?
    {
      hide Repairable, KeepsUploaded, Pending, BaseValid, ExactAssets, Named;
      seen := draft;
      KeepsItself(remote, "");
      s := RecheckImmutableSetting({Draft});
      if !s.Done? { return; }
      var ok, actions := Classify(classified, expected);
      DraftOnly(draft, identity);
      ClassifiedIsRepairable(draft, identity, expected, set n | n in expected && !(n in classified && classified[n].state.Uploaded?));
      if !ok { return Failed, draft; }
      forall n | n in actions && n !in classified ensures !Named(draft.assets, n) {
        AbsentIsUnnamed(draft.assets, n);
      }
      s, seen := RepairAll(actions, classified, expected);
    }

    // ---- publication ----

    /** PATCH of the release to a published prerelease; the server freezes it when immutable releases are on. */
    method Patch(seen: Release) returns (s: Status, response: Release)
      modifies this`remote, this`commit, this`immutableSetting, this`log, this`observed
      ensures observed == old(observed) + if s.Done? then [response] else []
      ensures log == old(log) + [PublishRelease(seen)] && !s.Failed?
      ensures exclusive ==> commit == old(commit) && immutableSetting == old(immutableSetting)
      ensures exclusive ==> remote == old(remote) || remote == Frozen(old(remote), immutableSetting)
      ensures exclusive && s.Done? ==> remote == Frozen(old(remote), immutableSetting) && response == remote
      ensures calm ==> s.Done?
    {
      Meanwhile();
      log := log + [PublishRelease(seen)];
      response := remote;
      s := Request();
      if !s.Done? { return; }
      remote := Frozen(remote, immutableSetting);
      s := Request();
      response := remote;
      if !exclusive {
        var other: Release := *;
        response := other;
      }
      if s.Done? { observed := observed + [response]; }
    }

    static function Frozen(r: Release, setting: bool): Release {
      r.(draft := false, prerelease := true, immutable := setting)
    }

    /** A release is published only by one request, made on an observed draft with exactly the local files. */
    static ghost predicate PublishesExactly(before: seq<Write>, after: seq<Write>, i: Identity, expected: map<Name, Local>) {
      after == before
      || (|after| == |before| + 1 && after[..|before|] == before && after[|before|].PublishRelease?
          && BaseValid(after[|before|].seen, i, {Draft}) && ExactAssets(ByName(after[|before|].seen.assets), expected))
    }

    /** patch_publish. */
    method PatchPublish(expected: map<Name, Local>) returns (s: Status)
      modifies this`remote, this`commit, this`immutableSetting, this`log, this`observed
      ensures old(observed) <= observed && (s.Done? ==> Observed(|old(observed)| + 2, 3, {Published}))
      ensures PublishesExactly(old(log), log, identity, expected)
      ensures exclusive ==> commit == old(commit) && immutableSetting == old(immutableSetting)
      ensures exclusive ==> remote == old(remote) || remote == Frozen(old(remote), immutableSetting)
      ensures exclusive && s.Done? ==> remote == Frozen(old(remote), immutableSetting)
      ensures Healthy() && old(Exact(remote, {Draft}, expected)) ==> !s.Failed?
      ensures calm ==> !s.Interrupted?
    {
      hide BaseValid, ExactAssets;
      var seen, assets;
      s, seen, assets := Anchor({Draft});
      if !s.Done? { return; }
      DraftOnly(seen, identity);
      var exact := RequireExactAssets(assets, expected);
      if !exact { return Failed; }
      FrozenIsPublished(seen, identity);
      var response;
      s, response := Patch(seen);
      assert log[..|old(log)|] == old(log);
      if !s.Done? { return; }
      var ok, after := ValidateReleaseBase(response, identity, {Published});
      if !ok { return Failed; }
      ghost var answer := response;
      s, response, after := Anchor({Published});
      assert observed[|old(observed)| + 2] == answer;
    }

    static lemma FrozenIsPublished(r: Release, i: Identity)
      requires BaseValid(r, i, {Draft})
      ensures BaseValid(Frozen(r, true), i, {Published})
    {
    }

    /** command_publish.  One way: a published release is only read; a draft is published after everything was
        downloaded and validated; success means an observed published release with exactly the local files. */
    method Publish(expected: map<Name, Local>) returns (s: Status, seen: Release)
      modifies this
      ensures PublishesExactly(old(log), log, identity, expected)
      ensures log != old(log) ==> Checked(|old(checked)|, {Draft}, expected)
      ensures s.Done? ==> Exact(seen, {Published}, expected) && Attested(old(checked), checked)
      ensures exclusive && !old(Healthy()) ==> log == old(log) && !s.Done?
      ensures exclusive && old(Stage(remote)) == R.Some(Published) ==> log == old(log) && remote == old(remote)
      ensures exclusive ==> remote == old(remote) || remote == Frozen(old(remote), immutableSetting)
      ensures exclusive && s.Done? ==> remote == old(remote).(draft := false, immutable := true) && seen == remote
      ensures calm && old(Healthy() && Exact(remote, {Draft, Published}, expected)) ==> s.Done?
    {
      hide BaseValid, ExactAssets;
      ExactInItsState(remote, identity);
      var assets;
      s, seen, assets := Anchor({Draft, Published});
      if !s.Done? { return; }
      MoreStates(seen, identity);
      var life := if Stage(seen) == R.Some(Draft) then Draft else Published;
      s := RecheckImmutableSetting({life});
      if !s.Done? { return; }
      var validated;
      s, validated := DownloadAndValidateAll({life}, expected);
      if !s.Done? { return; }
      if life.Draft? {
        ghost var k :| |old(checked)| <= k < |checked| && Exact(checked[k], {Draft}, expected);
        s := PatchPublish(expected);
        assert Exact(checked[k], {Draft}, expected);
        if !s.Done? { return; }
      }
      s, seen := ConfirmPublished(expected);
    }

    /** The end of command_publish: the published release, unchanged around its attestation. */
    method ConfirmPublished(expected: map<Name, Local>) returns (s: Status, seen: Release)
      modifies this`remote, this`commit, this`immutableSetting, this`checked, this`observed
      ensures old(observed) <= observed && (s.Done? ==> Observed(|old(observed)|, 6, {Published}))
      ensures exclusive ==> remote == old(remote) && commit == old(commit) && immutableSetting == old(immutableSetting)
      ensures old(checked) <= checked
      ensures s.Done? ==> Exact(seen, {Published}, expected) && (exclusive ==> seen == remote)
      ensures s.Done? ==> |checked| > |old(checked)| && BaseValid(checked[|checked| - 1], identity, {Published})
      ensures calm && old(Healthy() && Exact(remote, {Published}, expected)) ==> s.Done?
    {
      hide BaseValid, ExactAssets;
      var assets;
      s, seen, assets := Anchor({Published});
      if !s.Done? { return; }
      PublishedShape(seen, identity);
      var exact := RequireExactAssets(assets, expected);
      if !exact { return Failed, seen; }
      var r, again;
      s, r, again := Anchor({Published});
      if !s.Done? { return; }
      // the attestation of the immutable release
      s := CheckContent(r);
      if !s.Done? { return; }
      s, r, again := Anchor({Published});
    }

    /** The last content check was of a published release of this identity, after another one. */
    ghost predicate Attested(before: seq<Release>, after: seq<Release>) {
      |after| >= |before| + 2 && before <= after && BaseValid(after[|after| - 1], identity, {Published})
    }

    static lemma ExactInItsState(r: Release, i: Identity)
      ensures BaseValid(r, i, {Draft, Published}) ==> BaseValid(r, i, {Draft}) || BaseValid(r, i, {Published})
      ensures BaseValid(r, i, {Draft}) ==> Stage(r) == R.Some(Draft) && BaseValid(Frozen(r, true), i, {Published})
      ensures BaseValid(r, i, {Published}) ==> Stage(r) == R.Some(Published)
      ensures BaseValid(r, i, {Draft, Published}) ==> Distinct(r.assets)
    {
    }

    static lemma PublishedShape(r: Release, i: Identity)
      requires BaseValid(r, i, {Published})
      ensures Stage(r) == R.Some(Published) && Distinct(r.assets) && !r.draft && r.prerelease && r.immutable
    {
    }
  }
}
