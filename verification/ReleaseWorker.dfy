/**
 * The service worker's release state. A handler is the sequence of durable writes it makes to IndexedDB and to the cache
 * storage; a worker killed in the middle of a handler has made a prefix of them.
 */
module ReleaseSpec {
  import opened Prelude
  import opened JsText
  import opened ReleaseManifests

  datatype Pointer = Pointer(generation: nat, releaseId: ReleaseId)

  datatype Candidate = Candidate(
    generation: nat,
    releaseId: ReleaseId,
    version: string,
    expectedResourceCount: nat,
    clientId: Option<string>,
    nonce: Option<string>,
    validationExpiresAt: Option<int>,
    validationSourceClientId: Option<string>)

  datatype Lease = Lease(expiresAt: int, generation: nat, ownerId: string)

  datatype Status = Active | Downloading | Failed | Ready | Validating

  datatype Progress = Progress(downloadedBytes: int, generation: nat, releaseId: ReleaseId, status: Status, totalBytes: int, updatedAt: int, version: string)

  type Cache = map<Path, Bytes>

  datatype Store = Store(
    active: Option<Pointer>,
    candidate: Option<Candidate>,
    lease: Option<Lease>,
    progress: Option<Progress>,
    manifests: map<ReleaseId, Manifest>,
    caches: map<ReleaseId, Cache>)

  const EMPTY: Store := Store(None, None, None, None, map[], map[])

  const LEASE_MILLISECONDS := 75_000
  const VALIDATION_MILLISECONDS := 15_000
  const INDEX: Path := Path("/index.html")

  function StateOf(m: Manifest, generation: nat, status: Status, downloaded: int, now: int): Progress {
    Progress(downloaded, generation, m.releaseId, status, m.totalBytes, now, m.version)
  }

  // ---- durable writes ----

  /** Each is one IndexedDB transaction or one change to the cache storage. */
  datatype Write =
    | WriteLease(lease: Option<Lease>)
    | DeleteCache(releaseId: ReleaseId)
    | OpenCache(releaseId: ReleaseId)
    | PutResource(releaseId: ReleaseId, path: Path, body: Bytes)
    | WriteProgress(progress: Progress)
    | WriteReady(manifest: Manifest, candidate: Candidate, progress: Progress)
    | WriteCandidate(candidate: Candidate, status: Option<Progress>)
    | ClearCandidate(forgotten: Option<ReleaseId>, failed: Option<Progress>)
    | WriteActive(pointer: Pointer, progress: Progress)

  function CacheAt(st: Store, id: ReleaseId): Cache {
    if id in st.caches then st.caches[id] else map[]
  }

  function OrElse<T>(a: Option<T>, b: Option<T>): Option<T> {
    if a.Some? then a else b
  }

  function Apply(st: Store, w: Write): Store {
    match w
    case WriteLease(lease) => st.(lease := lease)
    case DeleteCache(id) => st.(caches := st.caches - {id})
    case OpenCache(id) => st.(caches := st.caches[id := CacheAt(st, id)])
    case PutResource(id, path, body) => st.(caches := st.caches[id := CacheAt(st, id)[path := body]])
    case WriteProgress(progress) => st.(progress := Some(progress))
    case WriteReady(m, candidate, progress) =>
      st.(manifests := st.manifests[m.releaseId := m], candidate := Some(candidate), progress := Some(progress))
    case WriteCandidate(candidate, status) => st.(candidate := Some(candidate), progress := OrElse(status, st.progress))
    case ClearCandidate(forgotten, failed) =>
      st.(candidate := None, progress := OrElse(failed, st.progress),
          manifests := if forgotten.Some? then st.manifests - {forgotten.value} else st.manifests)
    case WriteActive(pointer, progress) => st.(active := Some(pointer), candidate := None, progress := Some(progress))
  }

  function ApplyAll(st: Store, ws: seq<Write>): Store {
    if ws == [] then st else Apply(ApplyAll(st, ws[..|ws| - 1]), ws[|ws| - 1])
  }

  lemma ApplyOne(st: Store, w: Write)
    ensures ApplyAll(st, [w]) == Apply(st, w)
  {
    assert [w][..0] == [];
    assert ApplyAll(st, [w][..0]) == st;
  }

  lemma ApplyMore(st: Store, ws: seq<Write>, w: Write)
    ensures ApplyAll(st, ws + [w]) == Apply(ApplyAll(st, ws), w)
  {
    assert (ws + [w])[..|ws|] == ws;
  }

  lemma ApplyTwo(st: Store, a: Write, b: Write)
    ensures ApplyAll(st, [a, b]) == Apply(Apply(st, a), b)
  {
    ApplyOne(st, a);
    ApplyMore(st, [a], b);
    assert [a, b] == [a] + [b];
  }

  lemma ApplyThree(st: Store, a: Write, b: Write, c: Write)
    ensures ApplyAll(st, [a, b, c]) == Apply(Apply(Apply(st, a), b), c)
  {
    ApplyTwo(st, a, b);
    ApplyMore(st, [a, b], c);
    assert [a, b, c] == [a, b] + [c];
  }

  lemma {:induction false} ApplyConcat(st: Store, a: seq<Write>, b: seq<Write>)
    ensures ApplyAll(st, a + b) == ApplyAll(ApplyAll(st, a), b)
  {
    if b == [] {
      assert a + b == a;
    } else {
      var n := |b| - 1;
      assert (a + b)[..|a| + n] == a + b[..n];
      ApplyConcat(st, a, b[..n]);
    }
  }

  lemma ApplyAround(st: Store, first: Write, ws: seq<Write>, last: Write)
    ensures ApplyAll(st, [first] + ws + [last]) == Apply(ApplyAll(Apply(st, first), ws), last)
  {
    ApplyOne(st, first);
    ApplyConcat(st, [first], ws);
    ApplyMore(st, [first] + ws, last);
  }

  // ---- downloading a candidate ----

  /** What the network answers for one resource. */
  datatype Response = Missing | NoBody | Body(stream: Stream)

  /** `manifest` is `None` when the manifest request fails; its value is `None` when it has another shape. */
  datatype Feed = Feed(manifest: Option<Option<Manifest>>, meta: Meta, responses: seq<Response>)

  function Fetched(p: Platform, feed: Feed, i: nat, r: Resource): Result<Bytes> {
    if i >= |feed.responses| || feed.responses[i].Missing? then Err("release_resource_unavailable")
    else if feed.responses[i].NoBody? then Err("release_resource_body_missing")
    else
      var read := Read(feed.responses[i].stream, r.bytes, 0);
      if read.Err? then read
      else if p.sha256(read.value) != r.sha256 then Err("release_resource_digest_mismatch")
      else read
  }

  /** The resources from the i-th on, and whether one of them failed. */
  function ResourceWrites(p: Platform, m: Manifest, feed: Feed, lease: Lease, now: int, i: nat, downloaded: int): (seq<Write>, bool)
    requires i <= |m.resources|
    decreases |m.resources| - i
  {
    if i == |m.resources| then ([], false) else
    var r := m.resources[i];
    var body := Fetched(p, feed, i, r);
    if body.Err? || p.path(r.url).None? then ([], true) else
    var next := ResourceWrites(p, m, feed, lease, now, i + 1, downloaded + |body.value|);
    ([PutResource(m.releaseId, p.path(r.url).value, body.value),
      WriteLease(Some(lease)),
      WriteProgress(StateOf(m, lease.generation, Downloading, downloaded + |body.value|, now))] + next.0, next.1)
  }

  /** The writes for one resource, then those for the others. */
  lemma ResourceSplits(p: Platform, m: Manifest, feed: Feed, lease: Lease, now: int, i: nat, downloaded: int)
    requires i < |m.resources|
    ensures
      var ws := ResourceWrites(p, m, feed, lease, now, i, downloaded);
      var body := Fetched(p, feed, i, m.resources[i]);
      if body.Ok? && p.path(m.resources[i].url).Some? then
        var rest := ResourceWrites(p, m, feed, lease, now, i + 1, downloaded + |body.value|);
        ws.0 == OneWrites(p, m, lease, now, i, body.value, downloaded + |body.value|) + rest.0 && ws.1 == rest.1
      else ws.0 == [] && ws.1
  {
  }

  function OneWrites(p: Platform, m: Manifest, lease: Lease, now: int, i: nat, body: Bytes, downloaded: int): seq<Write>
    requires i < |m.resources| && p.path(m.resources[i].url).Some?
  {
    [PutResource(m.releaseId, p.path(m.resources[i].url).value, body), WriteLease(Some(lease)),
     WriteProgress(StateOf(m, lease.generation, Downloading, downloaded, now))]
  }

  /** The bytes received until the last resource or the first that fails. */
  function Received(p: Platform, m: Manifest, feed: Feed, i: nat, downloaded: int): int
    requires i <= |m.resources|
    decreases |m.resources| - i
  {
    if i == |m.resources| then downloaded else
    var body := Fetched(p, feed, i, m.resources[i]);
    if body.Err? || p.path(m.resources[i].url).None? then downloaded
    else Received(p, m, feed, i + 1, downloaded + |body.value|)
  }

  function NewCandidate(m: Manifest, generation: nat): Candidate {
    Candidate(generation, m.releaseId, m.version, |m.resources|, None, None, None, None)
  }

  function Failure(m: Manifest, lease: Lease, now: int): Write {
    ClearCandidate(Some(m.releaseId), Some(StateOf(m, lease.generation, Failed, 0, now)))
  }

  function CandidateWrites(p: Platform, m: Manifest, feed: Feed, lease: Lease, now: int): seq<Write> {
    var start := [DeleteCache(m.releaseId), OpenCache(m.releaseId), WriteProgress(StateOf(m, lease.generation, Downloading, 0, now))];
    var resources := ResourceWrites(p, m, feed, lease, now, 0, 0);
    start + resources.0
    + if resources.1 then [DeleteCache(m.releaseId), Failure(m, lease, now)]
      else [WriteReady(m, NewCandidate(m, lease.generation), StateOf(m, lease.generation, Ready, Received(p, m, feed, 0, 0), now))]
  }

  function UpdateWrites(p: Platform, st: Store, feed: Feed, lease: Lease, now: int): seq<Write> {
    if feed.manifest.None? then [ClearCandidate(None, None)] else
    var validated := Validate(p, feed.manifest.value);
    if validated.Err? then [ClearCandidate(None, None)] else
    var m := validated.value;
    if st.active.Some? && st.active.value.releaseId == m.releaseId then []
    else if ApiError(p, m, feed.meta).Some? then [Failure(m, lease, now)]
    else CandidateWrites(p, m, feed, lease, now)
  }

  lemma UpdateIgnoresLease(p: Platform, st: Store, held: Option<Lease>, feed: Feed, lease: Lease, now: int)
    ensures UpdateWrites(p, st.(lease := held), feed, lease, now) == UpdateWrites(p, st, feed, lease, now)
  {
  }

  function NewLease(st: Store, owner: string, now: int): Lease {
    Lease(now + LEASE_MILLISECONDS, if st.lease.Some? then st.lease.value.generation + 1 else 1, owner)
  }

  function DownloadWrites(p: Platform, st: Store, feed: Feed, owner: string, now: int): seq<Write> {
    if st.lease.Some? && st.lease.value.expiresAt > now then [] else
    var lease := NewLease(st, owner, now);
    [WriteLease(Some(lease))] + UpdateWrites(p, st, feed, lease, now) + [WriteLease(None)]
  }

  // ---- the other handlers ----

  function FailWrites(st: Store, now: int): seq<Write> {
    if st.candidate.None? then [] else
    var id := st.candidate.value.releaseId;
    [DeleteCache(id),
     ClearCandidate(Some(id), if id in st.manifests then Some(StateOf(st.manifests[id], st.candidate.value.generation, Failed, 0, now)) else None)]
  }

  /** What a page names when it speaks about the candidate. */
  datatype Claim = Claim(source: string, generation: nat, releaseId: ReleaseId, nonce: string)

  predicate IsCandidate(c: Candidate, claim: Claim) {
    c.generation == claim.generation && c.releaseId == claim.releaseId
  }

  predicate FromCandidate(c: Candidate, claim: Claim) {
    c.clientId == Some(claim.source) && IsCandidate(c, claim) && c.nonce == Some(claim.nonce)
  }

  predicate Within(c: Candidate, now: int) {
    c.validationExpiresAt.Some? && c.validationExpiresAt.value >= now
  }

  predicate HeldByAnother(c: Candidate, source: string, now: int) {
    c.validationSourceClientId.Some? && c.validationSourceClientId.value != source && Within(c, now)
  }

  function ValidateWrites(st: Store, claim: Claim, now: int): seq<Write> {
    if st.candidate.None? || !IsCandidate(st.candidate.value, claim) || HeldByAnother(st.candidate.value, claim.source, now) then [] else
    var c := st.candidate.value;
    if c.releaseId !in st.manifests then FailWrites(st, now) else
    var m := st.manifests[c.releaseId];
    [WriteCandidate(c.(nonce := Some(claim.nonce), validationExpiresAt := Some(now + VALIDATION_MILLISECONDS), validationSourceClientId := Some(claim.source)),
                    Some(StateOf(m, c.generation, Validating, m.totalBytes, now)))]
  }

  function ReportWrites(st: Store, claim: Claim, now: int): seq<Write> {
    if st.candidate.Some? && FromCandidate(st.candidate.value, claim) then FailWrites(st, now) else []
  }

  function PromoteWrites(p: Platform, st: Store, claim: Claim, meta: Meta, now: int): seq<Write> {
    if st.candidate.None? || !FromCandidate(st.candidate.value, claim) then [] else
    var c := st.candidate.value;
    if !Within(c, now) || c.releaseId !in st.manifests || ApiError(p, st.manifests[c.releaseId], meta).Some? then FailWrites(st, now) else
    var m := st.manifests[c.releaseId];
    [OpenCache(c.releaseId)]
    + if |CacheAt(st, c.releaseId)| != c.expectedResourceCount then FailWrites(st, now)
      else [WriteActive(Pointer(c.generation, c.releaseId), StateOf(m, c.generation, Active, m.totalBytes, now))]
  }

  // ---- requests ----

  /** A GET for a same-origin resource. `routed` is whether its query or its originating client names the candidate. */
  datatype Request = Request(clientId: string, resultingClientId: string, navigate: bool, path: Path, query: bool, routed: bool)

  datatype Reply = Cached(releaseId: ReleaseId, body: Bytes) | Network | Refused

  function Match(cache: Cache, request: Request): Option<Bytes> {
    if !request.query && request.path in cache then Some(cache[request.path]) else None
  }

  function MatchPage(cache: Cache, request: Request): Option<Bytes> {
    if Match(cache, request).Some? then Match(cache, request)
    else if request.navigate && INDEX in cache then Some(cache[INDEX]) else None
  }

  predicate Required(request: Request, m: Manifest) {
    request.navigate || (!request.query && exists i :: 0 <= i < |m.resources| && m.resources[i].url == request.path.text)
  }

  predicate TriesCandidate(st: Store, request: Request, now: int) {
    request.navigate && st.candidate.Some? && st.candidate.value.nonce.Some? && request.routed && Within(st.candidate.value, now)
    && request.resultingClientId != ""
  }

  predicate EntersCandidate(st: Store, request: Request, now: int) {
    TriesCandidate(st, request, now) && MatchPage(CacheAt(st, st.candidate.value.releaseId), request).Some?
  }

  predicate InCandidate(st: Store, request: Request, now: int) {
    st.candidate.Some? && st.candidate.value.clientId == Some(request.clientId) && Within(st.candidate.value, now)
  }

  function FetchReply(st: Store, request: Request, now: int): Reply {
    if EntersCandidate(st, request, now) then
      var id := st.candidate.value.releaseId;
      Cached(id, MatchPage(CacheAt(st, id), request).value)
    else if InCandidate(st, request, now) then
      var id := st.candidate.value.releaseId;
      if MatchPage(CacheAt(st, id), request).Some? then Cached(id, MatchPage(CacheAt(st, id), request).value)
      else if id !in st.manifests || Required(request, st.manifests[id]) then Refused else Network
    else if st.active.Some? then
      var id := st.active.value.releaseId;
      if MatchPage(CacheAt(st, id), request).Some? then Cached(id, MatchPage(CacheAt(st, id), request).value) else Network
    else Network
  }

  function FetchWrites(st: Store, request: Request, now: int): seq<Write> {
    if EntersCandidate(st, request, now) then
      var c := st.candidate.value;
      [OpenCache(c.releaseId), WriteCandidate(c.(clientId := Some(request.resultingClientId), validationSourceClientId := None), None)]
    else
      (if TriesCandidate(st, request, now) then [OpenCache(st.candidate.value.releaseId)] else [])
      + if InCandidate(st, request, now) then
          [OpenCache(st.candidate.value.releaseId)] + (if FetchReply(st, request, now).Refused? then FailWrites(st, now) else [])
        else if st.active.Some? then [OpenCache(st.active.value.releaseId)]
        else []
  }

  // ---- runs ----

  datatype Event =
    | StartUpdate(feed: Feed, owner: string)
    | ValidateCandidate(claim: Claim)
    | FailCandidate(claim: Claim)
    | StartupConfirmed(claim: Claim, meta: Meta)
    | FetchEvent(request: Request)

  function Writes(p: Platform, st: Store, event: Event, now: int): seq<Write> {
    match event
    case StartUpdate(feed, owner) => DownloadWrites(p, st, feed, owner, now)
    case ValidateCandidate(claim) => ValidateWrites(st, claim, now)
    case FailCandidate(claim) => ReportWrites(st, claim, now)
    case StartupConfirmed(claim, meta) => PromoteWrites(p, st, claim, meta, now)
    case FetchEvent(request) => FetchWrites(st, request, now)
  }

  /** One handler, which the browser kills after `survived` of its durable writes if that is fewer than it makes. */
  datatype Step = Step(event: Event, now: int, survived: nat)

  function After(p: Platform, st: Store, step: Step): Store {
    var ws := Writes(p, st, step.event, step.now);
    ApplyAll(st, if step.survived < |ws| then ws[..step.survived] else ws)
  }

  function Run(p: Platform, steps: seq<Step>): Store {
    if steps == [] then EMPTY else After(p, Run(p, steps[..|steps| - 1]), steps[|steps| - 1])
  }
}
