/** In every reachable state the active release is whole and genuine, and only a confirmed candidate replaces it. */
module ReleaseIntegrity {
  import opened Prelude
  import opened JsText
  import opened ReleaseManifests
  import opened ReleaseSpec

  // ---- genuine and complete caches ----

  predicate Genuine(p: Platform, r: Resource, path: Path, body: Bytes) {
    p.path(r.url) == Some(path) && |body| == r.bytes && p.sha256(body) == r.sha256
  }

  predicate Listed(p: Platform, resources: seq<Resource>, path: Path, body: Bytes) {
    exists i :: 0 <= i < |resources| && Genuine(p, resources[i], path, body)
  }

  /** Everything in the cache is a resource of the release. */
  ghost predicate AllGenuine(p: Platform, cache: Cache, resources: seq<Resource>) {
    forall path :: path in cache ==> Listed(p, resources, path, cache[path])
  }

  ghost predicate Complete(p: Platform, cache: Cache, m: Manifest) {
    AllGenuine(p, cache, m.resources) && |cache| == |m.resources|
  }

  function Paths(p: Platform, resources: seq<Resource>): set<Path> {
    set i | 0 <= i < |resources| && p.path(resources[i].url).Some? :: p.path(resources[i].url).value
  }

  lemma PathsOneMore(p: Platform, resources: seq<Resource>, i: nat)
    requires i < |resources| && p.path(resources[i].url).Some?
    ensures Paths(p, resources[..i + 1]) == Paths(p, resources[..i]) + {p.path(resources[i].url).value}
  {
    var path := p.path(resources[i].url).value;
    forall q ensures q in Paths(p, resources[..i + 1]) <==> q in Paths(p, resources[..i]) || q == path {
      if q in Paths(p, resources[..i + 1]) {
        var k :| 0 <= k < i + 1 && p.path(resources[..i + 1][k].url) == Some(q);
        if k < i { assert p.path(resources[..i][k].url) == Some(q); }
      }
      if q in Paths(p, resources[..i]) {
        var k :| 0 <= k < i && p.path(resources[..i][k].url) == Some(q);
        assert p.path(resources[..i + 1][k].url) == Some(q);
      }
      assert p.path(resources[..i + 1][i].url) == Some(path);
    }
  }

  lemma {:induction false} PathCount(p: Platform, resources: seq<Resource>)
    requires ResourcesAllowed(p, resources)
    ensures |Paths(p, resources)| == |resources|
  {
    if resources != [] {
      var n := |resources| - 1;
      PathCount(p, resources[..n]);
      PathsOneMore(p, resources, n);
      assert resources[..n + 1] == resources;
      assert p.path(resources[n].url).value !in Paths(p, resources[..n]);
    }
  }

  lemma SameSize<T>(a: set<T>, b: set<T>)
    requires a <= b && |a| == |b|
    ensures a == b
  {
    if x :| x in b && x !in a {
      SubsetSize(a + {x}, b);
    }
  }

  /** Counting suffices: a genuine cache of the right size holds every resource of the manifest, and nothing else. */
  lemma CompleteIsExact(p: Platform, cache: Cache, m: Manifest)
    requires Complete(p, cache, m) && ResourcesAllowed(p, m.resources)
    ensures cache.Keys == Paths(p, m.resources)
    ensures forall i :: 0 <= i < |m.resources| ==>
              var path := p.path(m.resources[i].url).value;
              path in cache && Genuine(p, m.resources[i], path, cache[path])
  {
    PathCount(p, m.resources);
    forall path | path in cache.Keys ensures path in Paths(p, m.resources) {
      assert Listed(p, m.resources, path, cache[path]);
    }
    assert |cache| == |cache.Keys|;
    SameSize(cache.Keys, Paths(p, m.resources));
    forall i | 0 <= i < |m.resources|
      ensures p.path(m.resources[i].url).value in cache
      ensures Genuine(p, m.resources[i], p.path(m.resources[i].url).value, cache[p.path(m.resources[i].url).value])
    {
      var path := p.path(m.resources[i].url).value;
      assert path in Paths(p, m.resources);
      assert Listed(p, m.resources, path, cache[path]);
    }
  }

  // ---- the invariant ----

  /** The active release has an acceptable manifest and a cache that is exactly its resources. */
  ghost predicate ActiveOk(p: Platform, st: Store) {
    st.active.Some? ==>
      var id := st.active.value.releaseId;
      id in st.manifests && st.manifests[id].releaseId == id && Acceptable(p, st.manifests[id])
      && id in st.caches && Complete(p, st.caches[id], st.manifests[id])
  }

  /** The candidate is another release, with an acceptable manifest; what its cache holds is genuine, though perhaps not all there. */
  ghost predicate CandidateOk(p: Platform, st: Store) {
    st.candidate.Some? ==>
      var c := st.candidate.value;
      c.releaseId in st.manifests && st.manifests[c.releaseId].releaseId == c.releaseId && Acceptable(p, st.manifests[c.releaseId])
      && c.expectedResourceCount == |st.manifests[c.releaseId].resources|
      && AllGenuine(p, CacheAt(st, c.releaseId), st.manifests[c.releaseId].resources)
      && (st.active.Some? ==> st.active.value.releaseId != c.releaseId)
  }

  ghost predicate Inv(p: Platform, st: Store) {
    ActiveOk(p, st) && CandidateOk(p, st)
  }

  /** The active pointer, its manifest and its cache. */
  ghost predicate ActiveKept(st: Store, st': Store) {
    st'.active == st.active
    && (st.active.Some? ==>
          var id := st.active.value.releaseId;
          id in st.manifests && id in st.caches ==>
            id in st'.manifests && st'.manifests[id] == st.manifests[id] && id in st'.caches && st'.caches[id] == st.caches[id])
  }

  // ---- writes that are safe in a state ----

  ghost predicate Other(st: Store, id: ReleaseId) {
    st.active.Some? ==> st.active.value.releaseId != id
  }

  ghost predicate Safe(p: Platform, st: Store, w: Write) {
    match w
    case WriteLease(_) => true
    case WriteProgress(_) => true
    case DeleteCache(id) => Other(st, id)
    case OpenCache(id) => true
    case PutResource(id, path, body) =>
      Other(st, id)
      && (st.candidate.Some? && st.candidate.value.releaseId == id && id in st.manifests ==> Listed(p, st.manifests[id].resources, path, body))
    case WriteReady(m, c, _) =>
      Other(st, m.releaseId) && Acceptable(p, m) && c.releaseId == m.releaseId && c.expectedResourceCount == |m.resources|
      && AllGenuine(p, CacheAt(st, m.releaseId), m.resources)
    case WriteCandidate(c, _) =>
      st.candidate.Some? && c.releaseId == st.candidate.value.releaseId && c.expectedResourceCount == st.candidate.value.expectedResourceCount
    case ClearCandidate(forgotten, _) => forgotten.Some? ==> Other(st, forgotten.value)
    case WriteActive(pointer, _) =>
      st.candidate.Some? && st.candidate.value.releaseId == pointer.releaseId && pointer.releaseId in st.caches
      && |st.caches[pointer.releaseId]| == st.candidate.value.expectedResourceCount
  }

  lemma SafeForActive(p: Platform, st: Store, w: Write)
    requires ActiveOk(p, st) && Safe(p, st, w) && !w.WriteActive?
    ensures ActiveKept(st, Apply(st, w)) && ActiveOk(p, Apply(st, w))
  {
    var st' := Apply(st, w);
    assert st'.active == st.active;
    if st.active.Some? {
      var id := st.active.value.releaseId;
      assert id in st'.manifests && st'.manifests[id] == st.manifests[id];
      assert id in st'.caches && st'.caches[id] == st.caches[id];
    }
  }

  lemma SafeActivation(p: Platform, st: Store, w: Write)
    requires CandidateOk(p, st) && Safe(p, st, w) && w.WriteActive?
    ensures ActiveOk(p, Apply(st, w))
  {
  }

  lemma SafeForCandidate(p: Platform, st: Store, w: Write)
    requires Inv(p, st) && Safe(p, st, w)
    ensures CandidateOk(p, Apply(st, w))
  {
    if w.PutResource? && st.candidate.Some? && st.candidate.value.releaseId == w.releaseId {
      PutGenuine(p, CacheAt(st, w.releaseId), st.manifests[w.releaseId].resources, w.path, w.body);
    }
  }

  lemma PutGenuine(p: Platform, cache: Cache, resources: seq<Resource>, path: Path, body: Bytes)
    requires AllGenuine(p, cache, resources) && Listed(p, resources, path, body)
    ensures AllGenuine(p, cache[path := body], resources)
  {
  }

  lemma SafeWrite(p: Platform, st: Store, w: Write)
    requires Inv(p, st) && Safe(p, st, w)
    ensures Inv(p, Apply(st, w))
    ensures !w.WriteActive? ==> ActiveKept(st, Apply(st, w))
  {
    if w.WriteActive? {
      SafeActivation(p, st, w);
    } else {
      SafeForActive(p, st, w);
    }
    SafeForCandidate(p, st, w);
  }

  /** Every write of the sequence is safe in the state its predecessors lead to. */
  ghost predicate AllSafe(p: Platform, st: Store, ws: seq<Write>) {
    forall k :: 0 <= k < |ws| ==> Safe(p, ApplyAll(st, ws[..k]), ws[k])
  }

  ghost predicate Quiet(ws: seq<Write>) {
    forall k :: 0 <= k < |ws| ==> !ws[k].WriteActive?
  }

  /** Being killed after any number of safe writes keeps the invariant, and the active release unless one of them activates. */
  lemma {:induction false} SafeWrites(p: Platform, st: Store, ws: seq<Write>, k: nat)
    requires Inv(p, st) && AllSafe(p, st, ws) && k <= |ws|
    ensures Inv(p, ApplyAll(st, ws[..k]))
    ensures Quiet(ws[..k]) ==> ActiveKept(st, ApplyAll(st, ws[..k]))
  {
    if k > 0 {
      SafeWrites(p, st, ws, k - 1);
      assert ws[..k][..k - 1] == ws[..k - 1];
      SafeWrite(p, ApplyAll(st, ws[..k - 1]), ws[k - 1]);
      if Quiet(ws[..k]) {
        assert !ws[..k][k - 1].WriteActive?;
        assert Quiet(ws[..k - 1]) by {
          assert forall j :: 0 <= j < k - 1 ==> ws[..k - 1][j] == ws[..k][j];
        }
      }
    }
  }

  lemma SafeConcat(p: Platform, st: Store, a: seq<Write>, b: seq<Write>)
    requires AllSafe(p, st, a) && AllSafe(p, ApplyAll(st, a), b)
    ensures AllSafe(p, st, a + b) && ApplyAll(st, a + b) == ApplyAll(ApplyAll(st, a), b)
  {
    ApplyConcat(st, a, b);
    forall k | 0 <= k < |a + b| ensures Safe(p, ApplyAll(st, (a + b)[..k]), (a + b)[k]) {
      if k < |a| {
        assert (a + b)[..k] == a[..k];
      } else {
        assert (a + b)[..k] == a + b[..k - |a|];
        ApplyConcat(st, a, b[..k - |a|]);
      }
    }
  }

  lemma SafeOne(p: Platform, st: Store, w: Write)
    requires Safe(p, st, w)
    ensures AllSafe(p, st, [w]) && ApplyAll(st, [w]) == Apply(st, w)
  {
    assert [w][..0] == [];
    ApplyOne(st, w);
  }

  lemma SafeTwo(p: Platform, st: Store, a: Write, b: Write)
    requires Safe(p, st, a) && Safe(p, Apply(st, a), b)
    ensures AllSafe(p, st, [a, b]) && ApplyAll(st, [a, b]) == Apply(Apply(st, a), b)
  {
    SafeOne(p, st, a);
    SafeOne(p, Apply(st, a), b);
    SafeConcat(p, st, [a], [b]);
    assert [a] + [b] == [a, b];
  }

  lemma SafeThree(p: Platform, st: Store, a: Write, b: Write, c: Write)
    requires Safe(p, st, a) && Safe(p, Apply(st, a), b) && Safe(p, Apply(Apply(st, a), b), c)
    ensures AllSafe(p, st, [a, b, c]) && ApplyAll(st, [a, b, c]) == Apply(Apply(Apply(st, a), b), c)
  {
    SafeTwo(p, st, a, b);
    SafeOne(p, Apply(Apply(st, a), b), c);
    SafeConcat(p, st, [a, b], [c]);
    assert [a, b] + [c] == [a, b, c];
  }

  // ---- the handlers are safe ----

  lemma FailSafe(p: Platform, st: Store, now: int)
    requires Inv(p, st)
    ensures AllSafe(p, st, FailWrites(st, now)) && Quiet(FailWrites(st, now))
  {
    if st.candidate.Some? {
      SafeTwo(p, st, FailWrites(st, now)[0], FailWrites(st, now)[1]);
    }
  }

  /** The download does not refill the cache of a stored candidate with another list of resources. */
  ghost predicate Determined(st: Store, m: Manifest) {
    st.candidate.Some? && st.candidate.value.releaseId == m.releaseId && m.releaseId in st.manifests ==>
      st.manifests[m.releaseId].resources == m.resources
  }

  /** What the download of `m` keeps true between its writes. */
  ghost predicate Downloads(p: Platform, st: Store, m: Manifest, i: nat)
    requires i <= |m.resources|
  {
    Inv(p, st) && Other(st, m.releaseId) && Acceptable(p, m) && Determined(st, m)
    && AllGenuine(p, CacheAt(st, m.releaseId), m.resources)
    && CacheAt(st, m.releaseId).Keys == Paths(p, m.resources[..i])
  }

  lemma OneResource(p: Platform, st: Store, m: Manifest, i: nat, body: Bytes, lease: Lease, progress: Progress)
    requires i < |m.resources| && Downloads(p, st, m, i) && p.path(m.resources[i].url).Some?
    requires Genuine(p, m.resources[i], p.path(m.resources[i].url).value, body)
    ensures
      var ws := [PutResource(m.releaseId, p.path(m.resources[i].url).value, body), WriteLease(Some(lease)), WriteProgress(progress)];
      AllSafe(p, st, ws) && Downloads(p, ApplyAll(st, ws), m, i + 1)
  {
    var path := p.path(m.resources[i].url).value;
    var put := PutResource(m.releaseId, path, body);
    assert Listed(p, m.resources, path, body);
    SafeThree(p, st, put, WriteLease(Some(lease)), WriteProgress(progress));
    SafeWrite(p, st, put);
    SafeWrite(p, Apply(st, put), WriteLease(Some(lease)));
    SafeWrite(p, Apply(Apply(st, put), WriteLease(Some(lease))), WriteProgress(progress));
    PutGenuine(p, CacheAt(st, m.releaseId), m.resources, path, body);
    PathsOneMore(p, m.resources, i);
  }

  lemma FetchedGenuine(p: Platform, feed: Feed, i: nat, r: Resource)
    requires Fetched(p, feed, i, r).Ok? && p.path(r.url).Some?
    ensures Genuine(p, r, p.path(r.url).value, Fetched(p, feed, i, r).value)
  {
    ReadIff(feed.responses[i].stream, r.bytes, 0);
  }

  lemma {:induction false} ResourcesQuiet(p: Platform, m: Manifest, feed: Feed, lease: Lease, now: int, i: nat, downloaded: int)
    requires i <= |m.resources|
    ensures Quiet(ResourceWrites(p, m, feed, lease, now, i, downloaded).0)
    decreases |m.resources| - i
  {
    if i < |m.resources| {
      ResourceSplits(p, m, feed, lease, now, i, downloaded);
      var body := Fetched(p, feed, i, m.resources[i]);
      if body.Ok? {
        ResourcesQuiet(p, m, feed, lease, now, i + 1, downloaded + |body.value|);
      }
    }
  }

  /** Writes for resources are safe; unless one failed, they leave all of them in the cache. */
  ghost predicate Fetches(p: Platform, st: Store, m: Manifest, ws: seq<Write>, failed: bool) {
    AllSafe(p, st, ws)
    && if failed then Inv(p, ApplyAll(st, ws)) && Other(ApplyAll(st, ws), m.releaseId)
       else Downloads(p, ApplyAll(st, ws), m, |m.resources|)
  }

  lemma FetchesMore(p: Platform, st: Store, st': Store, m: Manifest, first: seq<Write>, rest: seq<Write>, all: seq<Write>, failed: bool)
    requires AllSafe(p, st, first) && st' == ApplyAll(st, first) && Fetches(p, st', m, rest, failed)
    requires all == first + rest
    ensures Fetches(p, st, m, all, failed)
  {
    SafeConcat(p, st, first, rest);
  }

  lemma {:induction false} ResourcesSafe(p: Platform, st: Store, m: Manifest, feed: Feed, lease: Lease, now: int, i: nat, downloaded: int,
                                         ws: seq<Write>, failed: bool)
    requires i <= |m.resources| && Downloads(p, st, m, i)
    requires (ws, failed) == ResourceWrites(p, m, feed, lease, now, i, downloaded)
    ensures Fetches(p, st, m, ws, failed)
    decreases |m.resources| - i
  {
    if i < |m.resources| {
      ResourceSplits(p, m, feed, lease, now, i, downloaded);
      var body := Fetched(p, feed, i, m.resources[i]);
      if body.Ok? && p.path(m.resources[i].url).Some? {
        FetchedGenuine(p, feed, i, m.resources[i]);
        var next := downloaded + |body.value|;
        var first := OneWrites(p, m, lease, now, i, body.value, next);
        var rest := ResourceWrites(p, m, feed, lease, now, i + 1, next);
        var st' := AfterOne(p, st, m, lease, now, i, body.value, next);
        ResourcesSafe(p, st', m, feed, lease, now, i + 1, next, rest.0, rest.1);
        FetchesMore(p, st, st', m, first, rest.0, ws, failed);
      } else {
        NoneFetched(p, st, m, i, ws, failed);
      }
    } else {
      NoneFetched(p, st, m, i, ws, failed);
    }
  }

  lemma NoneFetched(p: Platform, st: Store, m: Manifest, i: nat, ws: seq<Write>, failed: bool)
    requires i <= |m.resources| && Downloads(p, st, m, i) && ws == [] && (failed || i == |m.resources|)
    ensures Fetches(p, st, m, ws, failed)
  {
  }

  lemma AfterOne(p: Platform, st: Store, m: Manifest, lease: Lease, now: int, i: nat, body: Bytes, downloaded: int) returns (st': Store)
    requires i < |m.resources| && Downloads(p, st, m, i) && p.path(m.resources[i].url).Some?
    requires Genuine(p, m.resources[i], p.path(m.resources[i].url).value, body)
    ensures st' == ApplyAll(st, OneWrites(p, m, lease, now, i, body, downloaded)) && Downloads(p, st', m, i + 1)
    ensures AllSafe(p, st, OneWrites(p, m, lease, now, i, body, downloaded))
  {
    OneResource(p, st, m, i, body, lease, StateOf(m, lease.generation, Downloading, downloaded, now));
    st' := ApplyAll(st, OneWrites(p, m, lease, now, i, body, downloaded));
  }

  lemma SafeDeletion(p: Platform, st: Store, m: Manifest, failure: Write)
    requires Inv(p, st) && Other(st, m.releaseId) && failure.ClearCandidate? && failure.forgotten == Some(m.releaseId)
    ensures AllSafe(p, st, [DeleteCache(m.releaseId), failure]) && Quiet([DeleteCache(m.releaseId), failure])
  {
    SafeTwo(p, st, DeleteCache(m.releaseId), failure);
  }

  lemma SafeStart(p: Platform, st: Store, m: Manifest, progress: Progress)
    requires Inv(p, st) && Other(st, m.releaseId) && Acceptable(p, m) && Determined(st, m)
    ensures
      var ws := [DeleteCache(m.releaseId), OpenCache(m.releaseId), WriteProgress(progress)];
      AllSafe(p, st, ws) && Quiet(ws) && Downloads(p, ApplyAll(st, ws), m, 0)
  {
    var a, b, c := DeleteCache(m.releaseId), OpenCache(m.releaseId), WriteProgress(progress);
    SafeThree(p, st, a, b, c);
    SafeWrite(p, st, a);
    SafeWrite(p, Apply(st, a), b);
    SafeWrite(p, Apply(Apply(st, a), b), c);
  }

  lemma SafeReady(p: Platform, st: Store, m: Manifest, generation: nat, progress: Progress)
    requires Downloads(p, st, m, |m.resources|)
    ensures AllSafe(p, st, [WriteReady(m, NewCandidate(m, generation), progress)])
  {
    SafeOne(p, st, WriteReady(m, NewCandidate(m, generation), progress));
  }

  lemma QuietConcat(a: seq<Write>, b: seq<Write>)
    requires Quiet(a) && Quiet(b)
    ensures Quiet(a + b)
  {
  }

  lemma CandidateSafe(p: Platform, st: Store, m: Manifest, feed: Feed, lease: Lease, now: int)
    requires Inv(p, st) && Other(st, m.releaseId) && Acceptable(p, m) && Determined(st, m)
    ensures AllSafe(p, st, CandidateWrites(p, m, feed, lease, now)) && Quiet(CandidateWrites(p, m, feed, lease, now))
  {
    var progress := StateOf(m, lease.generation, Downloading, 0, now);
    var start := [DeleteCache(m.releaseId), OpenCache(m.releaseId), WriteProgress(progress)];
    var resources := ResourceWrites(p, m, feed, lease, now, 0, 0);
    SafeStart(p, st, m, progress);
    ResourcesSafe(p, ApplyAll(st, start), m, feed, lease, now, 0, 0, resources.0, resources.1);
    ResourcesQuiet(p, m, feed, lease, now, 0, 0);
    SafeConcat(p, st, start, resources.0);
    QuietConcat(start, resources.0);
    var st' := ApplyAll(st, start + resources.0);
    if resources.1 {
      SafeDeletion(p, st', m, Failure(m, lease, now));
      SafeConcat(p, st, start + resources.0, [DeleteCache(m.releaseId), Failure(m, lease, now)]);
    } else {
      var progress' := StateOf(m, lease.generation, Ready, Received(p, m, feed, 0, 0), now);
      SafeReady(p, st', m, lease.generation, progress');
      SafeConcat(p, st, start + resources.0, [WriteReady(m, NewCandidate(m, lease.generation), progress')]);
    }
  }

  /** The manifest a download serves, when it gets as far as having one. */
  function Offered(p: Platform, event: Event): Option<Manifest> {
    if event.StartUpdate? && event.feed.manifest.Some? && Validate(p, event.feed.manifest.value).Ok?
    then Some(Validate(p, event.feed.manifest.value).value) else None
  }

  lemma UpdateSafe(p: Platform, st: Store, feed: Feed, owner: string, lease: Lease, now: int)
    requires Inv(p, st)
    requires Offered(p, StartUpdate(feed, owner)).Some? ==> Determined(st, Offered(p, StartUpdate(feed, owner)).value)
    ensures AllSafe(p, st, UpdateWrites(p, st, feed, lease, now)) && Quiet(UpdateWrites(p, st, feed, lease, now))
  {
    var offered := Offered(p, StartUpdate(feed, owner));
    if offered.None? {
      SafeOne(p, st, ClearCandidate(None, None));
    } else if Other(st, offered.value.releaseId) {
      var m := offered.value;
      if ApiError(p, m, feed.meta).Some? {
        SafeOne(p, st, Failure(m, lease, now));
      } else {
        CandidateSafe(p, st, m, feed, lease, now);
      }
    }
  }

  /** Taking and giving back the lease around safe writes is safe. */
  lemma SafeAround(p: Platform, st: Store, lease: Lease, ws: seq<Write>)
    requires AllSafe(p, st.(lease := Some(lease)), ws) && Quiet(ws)
    ensures AllSafe(p, st, [WriteLease(Some(lease))] + ws + [WriteLease(None)]) && Quiet([WriteLease(Some(lease))] + ws + [WriteLease(None)])
  {
    var take, give := WriteLease(Some(lease)), WriteLease(None);
    SafeOne(p, st, take);
    SafeConcat(p, st, [take], ws);
    SafeOne(p, ApplyAll(st, [take] + ws), give);
    SafeConcat(p, st, [take] + ws, [give]);
  }

  lemma DownloadSafe(p: Platform, st: Store, feed: Feed, owner: string, now: int)
    requires Inv(p, st)
    requires Offered(p, StartUpdate(feed, owner)).Some? ==> Determined(st, Offered(p, StartUpdate(feed, owner)).value)
    ensures AllSafe(p, st, DownloadWrites(p, st, feed, owner, now)) && Quiet(DownloadWrites(p, st, feed, owner, now))
  {
    if !(st.lease.Some? && st.lease.value.expiresAt > now) {
      var lease := NewLease(st, owner, now);
      var leased := st.(lease := Some(lease));
      UpdateSafe(p, leased, feed, owner, lease, now);
      UpdateIgnoresLease(p, st, Some(lease), feed, lease, now);
      SafeAround(p, st, lease, UpdateWrites(p, st, feed, lease, now));
    }
  }

  lemma PromoteSafe(p: Platform, st: Store, claim: Claim, meta: Meta, now: int)
    requires Inv(p, st)
    ensures AllSafe(p, st, PromoteWrites(p, st, claim, meta, now))
    ensures !Confirms(p, st, claim, meta, now) ==> Quiet(PromoteWrites(p, st, claim, meta, now))
  {
    FailSafe(p, st, now);
    if st.candidate.Some? && FromCandidate(st.candidate.value, claim) {
      var c := st.candidate.value;
      if Within(c, now) && ApiError(p, st.manifests[c.releaseId], meta).None? {
        var open := OpenCache(c.releaseId);
        var rest := PromoteWrites(p, st, claim, meta, now)[1..];
        SafeOne(p, st, open);
        SafeWrite(p, st, open);
        FailSafe(p, Apply(st, open), now);
        if |CacheAt(st, c.releaseId)| == c.expectedResourceCount {
          SafeOne(p, Apply(st, open), rest[0]);
        }
        SafeConcat(p, st, [open], rest);
      }
    }
  }

  /** Everything `promoteCandidate` asks for before it activates. */
  ghost predicate Confirms(p: Platform, st: Store, claim: Claim, meta: Meta, now: int) {
    st.candidate.Some? && FromCandidate(st.candidate.value, claim) && Within(st.candidate.value, now)
    && st.candidate.value.releaseId in st.manifests
    && ApiError(p, st.manifests[st.candidate.value.releaseId], meta).None?
    && |CacheAt(st, st.candidate.value.releaseId)| == st.candidate.value.expectedResourceCount
  }

  lemma ValidateSafe(p: Platform, st: Store, claim: Claim, now: int)
    requires Inv(p, st)
    ensures AllSafe(p, st, ValidateWrites(st, claim, now)) && Quiet(ValidateWrites(st, claim, now))
  {
    FailSafe(p, st, now);
    var ws := ValidateWrites(st, claim, now);
    if |ws| == 1 {
      SafeOne(p, st, ws[0]);
    }
  }

  lemma FetchSafe(p: Platform, st: Store, request: Request, now: int)
    requires Inv(p, st)
    ensures AllSafe(p, st, FetchWrites(st, request, now)) && Quiet(FetchWrites(st, request, now))
  {
    var ws := FetchWrites(st, request, now);
    if EntersCandidate(st, request, now) {
      SafeTwo(p, st, ws[0], ws[1]);
    } else {
      var tried := if TriesCandidate(st, request, now) then [OpenCache(st.candidate.value.releaseId)] else [];
      var st' := if TriesCandidate(st, request, now) then Apply(st, OpenCache(st.candidate.value.releaseId)) else st;
      if TriesCandidate(st, request, now) {
        SafeOne(p, st, tried[0]);
        SafeWrite(p, st, tried[0]);
      }
      OpenThenFail(p, st', ws[|tried|..], now, InCandidate(st, request, now), FetchReply(st, request, now).Refused?);
      SafeConcat(p, st, tried, ws[|tried|..]);
      assert ws == tried + ws[|tried|..];
      QuietConcat(tried, ws[|tried|..]);
    }
  }

  lemma OpenThenFail(p: Platform, st: Store, ws: seq<Write>, now: int, within: bool, refused: bool)
    requires Inv(p, st)
    requires if within then st.candidate.Some? && ws == [OpenCache(st.candidate.value.releaseId)] + (if refused then FailWrites(st, now) else [])
             else if st.active.Some? then ws == [OpenCache(st.active.value.releaseId)] else ws == []
    ensures AllSafe(p, st, ws) && Quiet(ws)
  {
    if ws != [] {
      var st' := Apply(st, ws[0]);
      SafeOne(p, st, ws[0]);
      SafeWrite(p, st, ws[0]);
      FailSafe(p, st', now);
      assert FailWrites(st', now) == FailWrites(st, now);
      assert AllSafe(p, st', []);
      assert ws == [ws[0]] + ws[1..];
      SafeConcat(p, st, [ws[0]], ws[1..]);
    }
  }

  // ---- main results ----

  ghost predicate Honest(p: Platform, st: Store, event: Event) {
    Offered(p, event).Some? ==> Determined(st, Offered(p, event).value)
  }

  lemma EventSafe(p: Platform, st: Store, event: Event, now: int)
    requires Inv(p, st) && Honest(p, st, event)
    ensures AllSafe(p, st, Writes(p, st, event, now))
    ensures !(event.StartupConfirmed? && Confirms(p, st, event.claim, event.meta, now)) ==> Quiet(Writes(p, st, event, now))
  {
    match event {
      case StartUpdate(feed, owner) => DownloadSafe(p, st, feed, owner, now);
      case ValidateCandidate(claim) => ValidateSafe(p, st, claim, now);
      case FailCandidate(claim) => FailSafe(p, st, now);
      case StartupConfirmed(claim, meta) => PromoteSafe(p, st, claim, meta, now);
      case FetchEvent(request) => FetchSafe(p, st, request, now);
    }
  }

  /** The step confirms the candidate and lives long enough to write the pointer. */
  ghost predicate Activates(p: Platform, st: Store, step: Step) {
    step.event.StartupConfirmed? && Confirms(p, st, step.event.claim, step.event.meta, step.now) && step.survived >= 2
  }

  lemma Promotes(p: Platform, st: Store, claim: Claim, meta: Meta, now: int, k: nat)
    requires Inv(p, st) && Confirms(p, st, claim, meta, now) && k <= 2
    ensures |PromoteWrites(p, st, claim, meta, now)| == 2
    ensures
      var st' := ApplyAll(st, PromoteWrites(p, st, claim, meta, now)[..k]);
      if k == 2 then st'.active == Some(Pointer(st.candidate.value.generation, st.candidate.value.releaseId)) && st'.candidate.None?
      else ActiveKept(st, st')
  {
    var ws := PromoteWrites(p, st, claim, meta, now);
    assert ws[0].OpenCache? && ws[1].WriteActive?;
    assert ApplyAll(st, ws[..0]) == st;
    assert ws[..1] == [ws[0]] && ws[..2] == [ws[0], ws[1]];
    assert [ws[0]][..0] == [] && [ws[0], ws[1]][..1] == [ws[0]];
    assert ApplyAll(st, [ws[0]]) == Apply(st, ws[0]);
  }

  // ---- a download does not depend on the candidate it replaces ----

  /** The store without its candidate and without what it remembers of one release. */
  function Masked(st: Store, id: ReleaseId): Store {
    st.(candidate := None, manifests := st.manifests - {id})
  }

  lemma MaskedWrite(st: Store, id: ReleaseId, w: Write)
    ensures Masked(Apply(st, w), id) == Masked(Apply(Masked(st, id), w), id)
  {
    var l, r := Apply(st, w), Apply(Masked(st, id), w);
    assert l.manifests - {id} == r.manifests - {id};
  }

  lemma {:induction false} MaskedWrites(st: Store, id: ReleaseId, ws: seq<Write>)
    ensures Masked(ApplyAll(st, ws), id) == Masked(ApplyAll(Masked(st, id), ws), id)
  {
    if ws != [] {
      var n := |ws| - 1;
      MaskedWrites(st, id, ws[..n]);
      MaskedWrite(ApplyAll(st, ws[..n]), id, ws[n]);
      MaskedWrite(ApplyAll(Masked(st, id), ws[..n]), id, ws[n]);
    } else {
      assert Masked(Masked(st, id), id) == Masked(st, id);
    }
  }

  /** The write that ends a download: whatever candidate and manifest of that id were there are replaced or gone. */
  predicate Seals(w: Write, id: ReleaseId) {
    (w.WriteReady? && w.manifest.releaseId == id) || (w.ClearCandidate? && w.forgotten == Some(id))
  }

  lemma SealMasks(st: Store, id: ReleaseId, w: Write)
    requires Seals(w, id)
    ensures Apply(st, w) == Apply(Masked(st, id), w)
  {
    assert Apply(st, w).manifests == Apply(Masked(st, id), w).manifests;
  }

  lemma SealedSame(st: Store, id: ReleaseId, ws: seq<Write>, w: Write)
    requires Seals(w, id)
    ensures ApplyAll(st, ws + [w]) == ApplyAll(Masked(st, id), ws + [w])
  {
    ApplyMore(st, ws, w);
    ApplyMore(Masked(st, id), ws, w);
    MaskedWrites(st, id, ws);
    SealMasks(ApplyAll(st, ws), id, w);
    SealMasks(ApplyAll(Masked(st, id), ws), id, w);
  }

  /** The download gets past the lease and offers a release that is not active. */
  predicate Attempts(p: Platform, st: Store, feed: Feed, owner: string, now: int) {
    !(st.lease.Some? && st.lease.value.expiresAt > now) && Offered(p, StartUpdate(feed, owner)).Some?
    && (st.active.Some? ==> st.active.value.releaseId != Offered(p, StartUpdate(feed, owner)).value.releaseId)
  }

  lemma UpdateSeals(p: Platform, st: Store, feed: Feed, owner: string, lease: Lease, now: int)
    requires Attempts(p, st, feed, owner, now)
    ensures
      var update := UpdateWrites(p, st, feed, lease, now);
      update != [] && Seals(update[|update| - 1], Offered(p, StartUpdate(feed, owner)).value.releaseId)
  {
  }

  /** A completed attempt leaves the same store as from the masked one, by the same writes. */
  lemma AttemptMasks(p: Platform, st: Store, feed: Feed, owner: string, now: int)
    requires Attempts(p, st, feed, owner, now)
    ensures
      var id := Offered(p, StartUpdate(feed, owner)).value.releaseId;
      var ws := DownloadWrites(p, st, feed, owner, now);
      ws == DownloadWrites(p, Masked(st, id), feed, owner, now) && ApplyAll(st, ws) == ApplyAll(Masked(st, id), ws)
  {
    var id := Offered(p, StartUpdate(feed, owner)).value.releaseId;
    var lease := NewLease(st, owner, now);
    var update := UpdateWrites(p, st, feed, lease, now);
    UpdateSeals(p, st, feed, owner, lease, now);
    MaskedUpdate(p, st, id, feed, lease, now);
    SealedAround(st, id, WriteLease(Some(lease)), update, WriteLease(None));
  }

  lemma MaskedUpdate(p: Platform, st: Store, id: ReleaseId, feed: Feed, lease: Lease, now: int)
    ensures UpdateWrites(p, st, feed, lease, now) == UpdateWrites(p, Masked(st, id), feed, lease, now)
  {
  }

  lemma SealedAround(st: Store, id: ReleaseId, first: Write, ws: seq<Write>, last: Write)
    requires ws != [] && Seals(ws[|ws| - 1], id)
    ensures ApplyAll(st, [first] + ws + [last]) == ApplyAll(Masked(st, id), [first] + ws + [last])
  {
    var n := |ws| - 1;
    var before := [first] + ws[..n];
    SealedSame(st, id, before, ws[n]);
    assert [first] + ws == before + [ws[n]];
    ApplyMore(st, [first] + ws, last);
    ApplyMore(Masked(st, id), [first] + ws, last);
  }

  lemma MaskedInv(p: Platform, st: Store, id: ReleaseId)
    requires ActiveOk(p, st) && Other(st, id)
    ensures Inv(p, Masked(st, id))
  {
  }

  /** Stores that agree but for a candidate and one other release agree on the active one. */
  lemma MaskedActive(p: Platform, st: Store, st': Store, masked: Store, id: ReleaseId)
    requires Other(st, id) && Masked(st', id) == Masked(masked, id)
    requires ActiveOk(p, st) && ActiveOk(p, masked) && ActiveKept(Masked(st, id), masked)
    ensures ActiveOk(p, st') && ActiveKept(st, st')
  {
    if st.active.Some? {
      var active := st.active.value.releaseId;
      assert active in Masked(st, id).manifests && Masked(st, id).manifests[active] == st.manifests[active];
      assert active in Masked(masked, id).manifests && Masked(masked, id).manifests[active] == masked.manifests[active];
      assert active in Masked(st', id).manifests && Masked(st', id).manifests[active] == st'.manifests[active];
    }
  }

  /** Whatever is downloaded, and wherever the worker is killed, the active release stays as it is. */
  lemma AttemptKeepsActive(p: Platform, st: Store, feed: Feed, owner: string, now: int, k: nat)
    requires Inv(p, st) && Attempts(p, st, feed, owner, now) && k <= |DownloadWrites(p, st, feed, owner, now)|
    ensures
      var st' := ApplyAll(st, DownloadWrites(p, st, feed, owner, now)[..k]);
      ActiveOk(p, st') && ActiveKept(st, st')
    ensures k == |DownloadWrites(p, st, feed, owner, now)| ==> Inv(p, ApplyAll(st, DownloadWrites(p, st, feed, owner, now)))
  {
    var id := Offered(p, StartUpdate(feed, owner)).value.releaseId;
    var masked := Masked(st, id);
    var ws := DownloadWrites(p, st, feed, owner, now);
    AttemptMasks(p, st, feed, owner, now);
    MaskedInv(p, st, id);
    DownloadSafe(p, masked, feed, owner, now);
    SafeWrites(p, masked, ws, k);
    assert forall j :: 0 <= j < k ==> ws[..k][j] == ws[j];
    MaskedWrites(st, id, ws[..k]);
    MaskedActive(p, st, ApplyAll(st, ws[..k]), ApplyAll(masked, ws[..k]), id);
    assert ws[..|ws|] == ws;
  }

  // ---- steps and runs ----

  /** The handler makes all its durable writes. */
  predicate Finishes(p: Platform, st: Store, step: Step) {
    step.survived >= |Writes(p, st, step.event, step.now)|
  }

  lemma HonestStep(p: Platform, st: Store, step: Step)
    requires Inv(p, st) && Honest(p, st, step.event)
    ensures Inv(p, After(p, st, step))
    ensures if Activates(p, st, step)
            then After(p, st, step).active == Some(Pointer(st.candidate.value.generation, st.candidate.value.releaseId)) && After(p, st, step).candidate.None?
            else ActiveKept(st, After(p, st, step))
  {
    var ws := Writes(p, st, step.event, step.now);
    var k := if step.survived < |ws| then step.survived else |ws|;
    EventSafe(p, st, step.event, step.now);
    SafeWrites(p, st, ws, k);
    assert ws[..|ws|] == ws;
    if step.event.StartupConfirmed? && Confirms(p, st, step.event.claim, step.event.meta, step.now) {
      Promotes(p, st, step.event.claim, step.event.meta, step.now, k);
    } else {
      assert forall j :: 0 <= j < k ==> ws[..k][j] == ws[j];
    }
  }

  /**
   * Every handler, killed anywhere, keeps the active release whole, and changes it exactly when a confirmed candidate takes its
   * place. It keeps the candidate genuine too, unless it is a download that is killed while it refills the candidate's cache
   * with other resources.
   */
  lemma StepKeeps(p: Platform, st: Store, step: Step)
    requires Inv(p, st)
    ensures ActiveOk(p, After(p, st, step))
    ensures Honest(p, st, step.event) || Finishes(p, st, step) ==> Inv(p, After(p, st, step))
    ensures if Activates(p, st, step)
            then After(p, st, step).active == Some(Pointer(st.candidate.value.generation, st.candidate.value.releaseId)) && After(p, st, step).candidate.None?
            else ActiveKept(st, After(p, st, step))
  {
    if Honest(p, st, step.event) {
      HonestStep(p, st, step);
    } else {
      var feed, owner := step.event.feed, step.event.owner;
      var ws := DownloadWrites(p, st, feed, owner, step.now);
      if ws == [] {
        assert After(p, st, step) == st;
      } else {
        AttemptKeepsActive(p, st, feed, owner, step.now, if step.survived < |ws| then step.survived else |ws|);
        assert ws[..|ws|] == ws;
      }
    }
  }

  /** No download is killed while it refills the cache of a stored candidate with another list of resources. */
  ghost predicate Sound(p: Platform, steps: seq<Step>) {
    forall k :: 0 <= k < |steps| ==> SoundStep(p, Run(p, steps[..k]), steps[k])
  }

  ghost predicate SoundStep(p: Platform, st: Store, step: Step) {
    Honest(p, st, step.event) || Finishes(p, st, step)
  }

  /** In every reachable state the active release's cache is exactly its manifest's resources, and the candidate is another release. */
  lemma {:induction false} RunKeeps(p: Platform, steps: seq<Step>)
    requires Sound(p, steps)
    ensures Inv(p, Run(p, steps))
  {
    if steps != [] {
      var n := |steps| - 1;
      assert Sound(p, steps[..n]) by {
        forall k | 0 <= k < n ensures SoundStep(p, Run(p, steps[..n][..k]), steps[..n][k]) {
          assert steps[..n][..k] == steps[..k];
          assert SoundStep(p, Run(p, steps[..k]), steps[k]);
        }
      }
      RunKeeps(p, steps[..n]);
      assert SoundStep(p, Run(p, steps[..n]), steps[n]);
      StepKeeps(p, Run(p, steps[..n]), steps[n]);
    }
  }

  /** Whatever is answered from a cache is a genuine resource of the active release or of the candidate under validation, under the path asked for. */
  lemma ServedIsGenuine(p: Platform, st: Store, request: Request, now: int)
    requires Inv(p, st) && FetchReply(st, request, now).Cached?
    ensures
      var reply := FetchReply(st, request, now);
      reply.releaseId in st.manifests
      && (Listed(p, st.manifests[reply.releaseId].resources, request.path, reply.body)
          || (request.navigate && Listed(p, st.manifests[reply.releaseId].resources, INDEX, reply.body)))
      && (if st.candidate.Some? && reply.releaseId == st.candidate.value.releaseId
          then EntersCandidate(st, request, now) || InCandidate(st, request, now)
          else st.active.Some? && reply.releaseId == st.active.value.releaseId)
  {
    var id := FetchReply(st, request, now).releaseId;
    assert AllGenuine(p, CacheAt(st, id), st.manifests[id].resources);
  }

  // ---- what a whole download leads to ----

  predicate AllFetched(p: Platform, m: Manifest, feed: Feed, i: nat)
    requires i <= |m.resources|
  {
    forall k :: i <= k < |m.resources| ==> Fetched(p, feed, k, m.resources[k]).Ok?
  }

  lemma {:induction false} FailsIff(p: Platform, m: Manifest, feed: Feed, lease: Lease, now: int, i: nat, downloaded: int)
    requires i <= |m.resources| && ResourcesAllowed(p, m.resources)
    ensures ResourceWrites(p, m, feed, lease, now, i, downloaded).1 <==> !AllFetched(p, m, feed, i)
    decreases |m.resources| - i
  {
    if i < |m.resources| {
      ResourceSplits(p, m, feed, lease, now, i, downloaded);
      var body := Fetched(p, feed, i, m.resources[i]);
      if body.Ok? {
        FailsIff(p, m, feed, lease, now, i + 1, downloaded + |body.value|);
      }
    }
  }

  /** The download got past the checks that come before the resources. */
  predicate Proceeds(p: Platform, st: Store, feed: Feed, owner: string, now: int) {
    Attempts(p, st, feed, owner, now) && ApiError(p, Offered(p, StartUpdate(feed, owner)).value, feed.meta).None?
  }

  ghost predicate Outcome(p: Platform, m: Manifest, feed: Feed, lease: Lease, now: int, st: Store, st': Store) {
    st'.lease.None?
    && if AllFetched(p, m, feed, 0) then
         st'.candidate == Some(Candidate(lease.generation, m.releaseId, m.version, |m.resources|, None, None, None, None))
         && st'.manifests == st.manifests[m.releaseId := m]
         && m.releaseId in st'.caches && Complete(p, st'.caches[m.releaseId], m)
         && st'.progress == Some(Progress(m.totalBytes, lease.generation, m.releaseId, Ready, m.totalBytes, now, m.version))
       else st'.candidate.None? && m.releaseId !in st'.caches && m.releaseId !in st'.manifests
            && st'.progress == Some(Progress(0, lease.generation, m.releaseId, Failed, m.totalBytes, now, m.version))
  }

  /** All the resources in full make a complete candidate; one bad resource leaves neither candidate, cache nor manifest behind. */
  lemma DownloadOutcome(p: Platform, st: Store, feed: Feed, owner: string, now: int)
    requires Inv(p, st) && Proceeds(p, st, feed, owner, now)
    ensures Outcome(p, Offered(p, StartUpdate(feed, owner)).value, feed, NewLease(st, owner, now), now,
                    st, ApplyAll(st, DownloadWrites(p, st, feed, owner, now)))
  {
    var m := Offered(p, StartUpdate(feed, owner)).value;
    var masked := Masked(st, m.releaseId);
    AttemptMasks(p, st, feed, owner, now);
    MaskedInv(p, st, m.releaseId);
    FreshOutcome(p, masked, m, feed, owner, now);
    MaskedOutcome(p, m, feed, NewLease(st, owner, now), now, st, ApplyAll(st, DownloadWrites(p, st, feed, owner, now)));
  }

  lemma MaskedOutcome(p: Platform, m: Manifest, feed: Feed, lease: Lease, now: int, st: Store, st': Store)
    requires Outcome(p, m, feed, lease, now, Masked(st, m.releaseId), st')
    ensures Outcome(p, m, feed, lease, now, st, st')
  {
    assert Masked(st, m.releaseId).manifests[m.releaseId := m] == st.manifests[m.releaseId := m];
  }

  lemma FreshOutcome(p: Platform, st: Store, m: Manifest, feed: Feed, owner: string, now: int)
    requires Inv(p, st) && Proceeds(p, st, feed, owner, now) && m == Offered(p, StartUpdate(feed, owner)).value && Determined(st, m)
    ensures Outcome(p, m, feed, NewLease(st, owner, now), now, st, ApplyAll(st, DownloadWrites(p, st, feed, owner, now)))
  {
    var lease := NewLease(st, owner, now);
    var update := CandidateWrites(p, m, feed, lease, now);
    assert UpdateWrites(p, st, feed, lease, now) == update;
    ApplyAround(st, WriteLease(Some(lease)), update, WriteLease(None));
    CandidateOutcome(p, st.(lease := Some(lease)), m, feed, lease, now);
  }

  lemma {:induction false} ReceivedAll(p: Platform, m: Manifest, feed: Feed, i: nat, downloaded: int)
    requires i <= |m.resources| && ResourcesAllowed(p, m.resources) && AllFetched(p, m, feed, i)
    ensures Received(p, m, feed, i, downloaded) == downloaded + Total(m.resources) - Total(m.resources[..i])
    decreases |m.resources| - i
  {
    if i < |m.resources| {
      var body := Fetched(p, feed, i, m.resources[i]);
      ReadIff(feed.responses[i].stream, m.resources[i].bytes, 0);
      assert m.resources[..i + 1][..i] == m.resources[..i];
      ReceivedAll(p, m, feed, i + 1, downloaded + |body.value|);
    } else {
      assert m.resources[..i] == m.resources;
    }
  }

  /** The store once a download's resources have arrived, and how the download ends from there. */
  lemma CandidateEnds(p: Platform, st: Store, m: Manifest, feed: Feed, lease: Lease, now: int) returns (filled: Store)
    requires Inv(p, st) && Other(st, m.releaseId) && Acceptable(p, m) && Determined(st, m)
    ensures ApplyAll(st, CandidateWrites(p, m, feed, lease, now))
         == if AllFetched(p, m, feed, 0)
            then Apply(filled, WriteReady(m, NewCandidate(m, lease.generation), StateOf(m, lease.generation, Ready, m.totalBytes, now)))
            else Apply(Apply(filled, DeleteCache(m.releaseId)), Failure(m, lease, now))
    ensures filled.manifests == st.manifests
    ensures AllFetched(p, m, feed, 0) ==> Downloads(p, filled, m, |m.resources|)
  {
    var progress := StateOf(m, lease.generation, Downloading, 0, now);
    var start := [DeleteCache(m.releaseId), OpenCache(m.releaseId), WriteProgress(progress)];
    var resources := ResourceWrites(p, m, feed, lease, now, 0, 0);
    SafeStart(p, st, m, progress);
    ResourcesSafe(p, ApplyAll(st, start), m, feed, lease, now, 0, 0, resources.0, resources.1);
    FailsIff(p, m, feed, lease, now, 0, 0);
    ApplyConcat(st, start, resources.0);
    ManifestsKept(p, st, m, progress, feed, lease, now);
    filled := ApplyAll(st, start + resources.0);
    if resources.1 {
      ApplyTwo(filled, DeleteCache(m.releaseId), Failure(m, lease, now));
      ApplyConcat(st, start + resources.0, [DeleteCache(m.releaseId), Failure(m, lease, now)]);
    } else {
      ReceivedAll(p, m, feed, 0, 0);
      ApplyMore(st, start + resources.0, WriteReady(m, NewCandidate(m, lease.generation), StateOf(m, lease.generation, Ready, m.totalBytes, now)));
    }
  }

  lemma CandidateOutcome(p: Platform, st: Store, m: Manifest, feed: Feed, lease: Lease, now: int)
    requires Inv(p, st) && Other(st, m.releaseId) && Acceptable(p, m) && Determined(st, m)
    ensures
      var st' := ApplyAll(st, CandidateWrites(p, m, feed, lease, now));
      if AllFetched(p, m, feed, 0) then
        st'.candidate == Some(NewCandidate(m, lease.generation)) && st'.manifests == st.manifests[m.releaseId := m]
        && m.releaseId in st'.caches && Complete(p, st'.caches[m.releaseId], m)
        && st'.progress == Some(StateOf(m, lease.generation, Ready, m.totalBytes, now))
      else st'.candidate.None? && m.releaseId !in st'.caches && m.releaseId !in st'.manifests
           && st'.progress == Some(StateOf(m, lease.generation, Failed, 0, now))
  {
    var filled := CandidateEnds(p, st, m, feed, lease, now);
    if AllFetched(p, m, feed, 0) {
      DownloadedWhole(p, filled, m);
    }
  }

  lemma DownloadedWhole(p: Platform, st: Store, m: Manifest)
    requires Downloads(p, st, m, |m.resources|)
    ensures m.releaseId in st.caches && Complete(p, st.caches[m.releaseId], m)
  {
    assert m.resources[..|m.resources|] == m.resources;
    PathCount(p, m.resources);
    var cache := CacheAt(st, m.releaseId);
    assert |cache| == |cache.Keys|;
  }

  /** Only the last write of a download touches the manifests. */
  lemma ManifestsKept(p: Platform, st: Store, m: Manifest, progress: Progress, feed: Feed, lease: Lease, now: int)
    ensures
      var start := [DeleteCache(m.releaseId), OpenCache(m.releaseId), WriteProgress(progress)];
      ApplyAll(st, start + ResourceWrites(p, m, feed, lease, now, 0, 0).0).manifests == st.manifests
  {
    var start := [DeleteCache(m.releaseId), OpenCache(m.releaseId), WriteProgress(progress)];
    NoManifests(p, m, feed, lease, now, 0, 0);
    Untouched(st, start + ResourceWrites(p, m, feed, lease, now, 0, 0).0);
  }

  predicate KeepsManifests(w: Write) {
    w.WriteLease? || w.DeleteCache? || w.OpenCache? || w.PutResource? || w.WriteProgress?
  }

  lemma {:induction false} NoManifests(p: Platform, m: Manifest, feed: Feed, lease: Lease, now: int, i: nat, downloaded: int)
    requires i <= |m.resources|
    ensures forall w :: w in ResourceWrites(p, m, feed, lease, now, i, downloaded).0 ==> KeepsManifests(w)
    decreases |m.resources| - i
  {
    if i < |m.resources| {
      ResourceSplits(p, m, feed, lease, now, i, downloaded);
      var body := Fetched(p, feed, i, m.resources[i]);
      if body.Ok? {
        NoManifests(p, m, feed, lease, now, i + 1, downloaded + |body.value|);
      }
    }
  }

  lemma {:induction false} Untouched(st: Store, ws: seq<Write>)
    requires forall w :: w in ws ==> KeepsManifests(w)
    ensures ApplyAll(st, ws).manifests == st.manifests
  {
    if ws != [] {
      Untouched(st, ws[..|ws| - 1]);
      assert ws[|ws| - 1] in ws;
    }
  }

  // ---- validation before activation ----

  /** The step asked for validation of this candidate with this nonce, and set its deadline. */
  predicate Validates(step: Step, c: Candidate) {
    step.event.ValidateCandidate? && IsCandidate(c, step.event.claim) && c.nonce == Some(step.event.claim.nonce)
    && c.validationExpiresAt == Some(step.now + VALIDATION_MILLISECONDS)
  }

  /** The step was a navigation that opened this client. */
  predicate Opens(step: Step, clientId: string) {
    step.event.FetchEvent? && step.event.request.navigate && step.event.request.routed && step.event.request.resultingClientId == clientId
  }

  /** A candidate has a nonce and a deadline only from a validation, and a client only from a navigation. */
  ghost predicate Attested(steps: seq<Step>, c: Candidate) {
    (c.nonce.Some? || c.validationExpiresAt.Some? ==> exists k :: 0 <= k < |steps| && Validates(steps[k], c))
    && (c.clientId.Some? ==> exists k :: 0 <= k < |steps| && Opens(steps[k], c.clientId.value))
  }

  lemma AttestedLonger(steps: seq<Step>, step: Step, c: Candidate)
    requires Attested(steps, c)
    ensures Attested(steps + [step], c)
  {
    if c.nonce.Some? || c.validationExpiresAt.Some? {
      var k :| 0 <= k < |steps| && Validates(steps[k], c);
      assert Validates((steps + [step])[k], c);
    }
    if c.clientId.Some? {
      var k :| 0 <= k < |steps| && Opens(steps[k], c.clientId.value);
      assert Opens((steps + [step])[k], c.clientId.value);
    }
  }

  ghost predicate Attesting(steps: seq<Step>, w: Write) {
    w.WriteReady? || w.WriteCandidate? ==> Attested(steps, w.candidate)
  }

  lemma {:induction false} AttestedAfter(steps: seq<Step>, st: Store, ws: seq<Write>)
    requires st.candidate.Some? ==> Attested(steps, st.candidate.value)
    requires forall w :: w in ws ==> Attesting(steps, w)
    ensures ApplyAll(st, ws).candidate.Some? ==> Attested(steps, ApplyAll(st, ws).candidate.value)
  {
    if ws != [] {
      AttestedAfter(steps, st, ws[..|ws| - 1]);
      assert ws[|ws| - 1] in ws;
    }
  }

  lemma DownloadAttests(p: Platform, st: Store, feed: Feed, owner: string, now: int, steps: seq<Step>)
    ensures forall w :: w in DownloadWrites(p, st, feed, owner, now) ==> Attesting(steps, w)
  {
    var offered := Offered(p, StartUpdate(feed, owner));
    if offered.Some? {
      NoManifests(p, offered.value, feed, NewLease(st, owner, now), now, 0, 0);
    }
  }

  lemma EventAttests(p: Platform, st: Store, steps: seq<Step>, step: Step)
    requires st.candidate.Some? ==> Attested(steps, st.candidate.value)
    ensures forall w :: w in Writes(p, st, step.event, step.now) ==> Attesting(steps + [step], w)
  {
    var later := steps + [step];
    assert later[|steps|] == step;
    if st.candidate.Some? { AttestedLonger(steps, step, st.candidate.value); }
    match step.event {
      case StartUpdate(feed, owner) => DownloadAttests(p, st, feed, owner, step.now, later);
      case ValidateCandidate(claim) =>
        forall w | w in ValidateWrites(st, claim, step.now) && w.WriteCandidate? ensures Attested(later, w.candidate) {
          assert Validates(later[|steps|], w.candidate);
        }
      case FetchEvent(request) => FetchAttests(st, later, |steps|);
      case _ =>
    }
  }

  lemma FetchAttests(st: Store, steps: seq<Step>, k: nat)
    requires k < |steps| && steps[k].event.FetchEvent? && (st.candidate.Some? ==> Attested(steps, st.candidate.value))
    ensures forall w :: w in FetchWrites(st, steps[k].event.request, steps[k].now) ==> Attesting(steps, w)
  {
    var request, now := steps[k].event.request, steps[k].now;
    if EntersCandidate(st, request, now) {
      EntryAttests(st, steps, k, st.candidate.value.(clientId := Some(request.resultingClientId), validationSourceClientId := None));
    }
  }

  lemma EntryAttests(st: Store, steps: seq<Step>, k: nat, c: Candidate)
    requires st.candidate.Some? && Attested(steps, st.candidate.value) && k < |steps| && steps[k].event.FetchEvent?
    requires EntersCandidate(st, steps[k].event.request, steps[k].now)
    requires c == st.candidate.value.(clientId := Some(steps[k].event.request.resultingClientId), validationSourceClientId := None)
    ensures Attested(steps, c)
  {
    assert Opens(steps[k], c.clientId.value);
    if c.nonce.Some? || c.validationExpiresAt.Some? {
      var j :| 0 <= j < |steps| && Validates(steps[j], st.candidate.value);
      assert Validates(steps[j], c);
    }
  }

  lemma {:induction false} RunAttests(p: Platform, steps: seq<Step>)
    ensures Run(p, steps).candidate.Some? ==> Attested(steps, Run(p, steps).candidate.value)
  {
    if steps != [] {
      var n := |steps| - 1;
      var st := Run(p, steps[..n]);
      RunAttests(p, steps[..n]);
      EventAttests(p, st, steps[..n], steps[n]);
      assert steps == steps[..n] + [steps[n]];
      var ws := Writes(p, st, steps[n].event, steps[n].now);
      if st.candidate.Some? { AttestedLonger(steps[..n], steps[n], st.candidate.value); }
      AttestedAfter(steps, st, if steps[n].survived < |ws| then ws[..steps[n].survived] else ws);
    }
  }

  /** A release becomes active only within the time set by a validation of it with the same nonce, and from a client that a navigation to it opened. */
  lemma ActivationWasValidated(p: Platform, steps: seq<Step>, step: Step)
    requires Activates(p, Run(p, steps), step)
    ensures exists k :: 0 <= k < |steps| && steps[k].event.ValidateCandidate?
                        && steps[k].event.claim.(source := step.event.claim.source) == step.event.claim
                        && step.now <= steps[k].now + VALIDATION_MILLISECONDS
    ensures exists k :: 0 <= k < |steps| && Opens(steps[k], step.event.claim.source)
  {
    RunAttests(p, steps);
    var c := Run(p, steps).candidate.value;
    var k :| 0 <= k < |steps| && Validates(steps[k], c);
    assert steps[k].event.claim.(source := step.event.claim.source) == step.event.claim;
  }
}
