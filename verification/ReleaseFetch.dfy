/** What a request is answered with: a whole release answers for every one of its files. */
module ReleaseFetches {
  import opened Prelude
  import opened JsText
  import opened ReleaseManifests
  import opened ReleaseSpec
  import opened ReleaseIntegrity

  /** The release has a file under this path. */
  predicate Names(p: Platform, m: Manifest, path: Path) {
    exists i :: 0 <= i < |m.resources| && p.path(m.resources[i].url) == Some(path)
  }

  /** A whole cache answers for exactly the paths of its release. */
  lemma WholeAnswers(p: Platform, cache: Cache, m: Manifest, path: Path)
    requires Complete(p, cache, m) && ResourcesAllowed(p, m.resources)
    ensures path in cache <==> Names(p, m, path)
    ensures path in cache ==> Listed(p, m.resources, path, cache[path])
  {
    CompleteIsExact(p, cache, m);
    assert path in Paths(p, m.resources) <==> Names(p, m, path);
  }

  /** The answer is the file asked for or, for a page the release does not have, its start page. */
  ghost predicate AnswersFrom(p: Platform, m: Manifest, request: Request, reply: Reply) {
    reply.Cached? && reply.releaseId == m.releaseId
    && if !request.query && Names(p, m, request.path) then Listed(p, m.resources, request.path, reply.body)
       else request.navigate && Listed(p, m.resources, Path("/index.html"), reply.body)
  }

  /** The release can answer. */
  predicate CanAnswer(p: Platform, m: Manifest, request: Request) {
    (!request.query && Names(p, m, request.path)) || (request.navigate && Names(p, m, Path("/index.html")))
  }

  predicate InTime(c: Candidate, now: int) {
    c.validationExpiresAt.Some? && now <= c.validationExpiresAt.value
  }

  /** The request comes from the client that a navigation to the candidate opened, while its validation runs. */
  predicate FromCandidatePage(st: Store, request: Request, now: int) {
    st.candidate.Some? && st.candidate.value.clientId == Some(request.clientId) && InTime(st.candidate.value, now)
  }

  /** The request opens a page on the candidate under validation. */
  predicate OpensCandidate(st: Store, request: Request, now: int) {
    request.navigate && request.routed && request.resultingClientId != "" && st.candidate.Some? && st.candidate.value.nonce.Some?
    && InTime(st.candidate.value, now)
  }

  /** Everyone else is served from the active release whenever it has the file, and from the network only if not. */
  lemma ActiveAnswers(p: Platform, st: Store, request: Request, now: int)
    requires Inv(p, st) && !FromCandidatePage(st, request, now) && !OpensCandidate(st, request, now)
    ensures
      var reply := FetchReply(st, request, now);
      if st.active.Some? && st.active.value.releaseId in st.manifests && CanAnswer(p, st.manifests[st.active.value.releaseId], request)
      then AnswersFrom(p, st.manifests[st.active.value.releaseId], request, reply)
      else reply == Network
  {
    if st.active.Some? {
      var id := st.active.value.releaseId;
      WholeAnswers(p, st.caches[id], st.manifests[id], request.path);
      WholeAnswers(p, st.caches[id], st.manifests[id], INDEX);
    }
  }

  /** A candidate whose download is complete. */
  ghost predicate WholeCandidate(p: Platform, st: Store) {
    st.candidate.Some? && st.candidate.value.releaseId in st.manifests
    && Complete(p, CacheAt(st, st.candidate.value.releaseId), st.manifests[st.candidate.value.releaseId])
  }

  /** The page that validates a whole candidate gets that release's files; what the release needs and does not have is refused. */
  lemma CandidateAnswers(p: Platform, st: Store, request: Request, now: int)
    requires Inv(p, st) && WholeCandidate(p, st) && (FromCandidatePage(st, request, now) || OpensCandidate(st, request, now))
    ensures
      var m := st.manifests[st.candidate.value.releaseId];
      var reply := FetchReply(st, request, now);
      if CanAnswer(p, m, request) then AnswersFrom(p, m, request, reply)
      else if FromCandidatePage(st, request, now) then
        reply == (if request.navigate || (!request.query && exists i :: 0 <= i < |m.resources| && m.resources[i].url == request.path.text)
                  then Refused else Network)
      else !reply.Refused?
  {
    var id := st.candidate.value.releaseId;
    WholeAnswers(p, CacheAt(st, id), st.manifests[id], request.path);
    WholeAnswers(p, CacheAt(st, id), st.manifests[id], INDEX);
  }

  // ---- from a whole candidate to the active release ----

  /** What the pages are told about the download. */
  predicate Shows(st: Store, m: Manifest, generation: nat, status: Status, downloaded: int, now: int) {
    st.progress == Some(Progress(downloaded, generation, m.releaseId, status, m.totalBytes, now, m.version))
  }

  /** One validation of the candidate by its page. */
  lemma ValidationOutcome(p: Platform, st: Store, claim: Claim, now: int)
    requires Inv(p, st)
    ensures
      var st' := ApplyAll(st, ValidateWrites(st, claim, now));
      st'.active == st.active && st'.manifests == st.manifests && st'.caches == st.caches
      && if st.candidate.Some? && st.candidate.value.generation == claim.generation && st.candidate.value.releaseId == claim.releaseId
            && (st.candidate.value.validationSourceClientId.None? || st.candidate.value.validationSourceClientId == Some(claim.source)
                || !InTime(st.candidate.value, now))
         then st'.candidate == Some(st.candidate.value.(nonce := Some(claim.nonce), validationExpiresAt := Some(now + 15_000),
                                                        validationSourceClientId := Some(claim.source)))
              && Shows(st', st.manifests[claim.releaseId], claim.generation, Status.Validating, st.manifests[claim.releaseId].totalBytes, now)
         else st' == st
  {
    var ws := ValidateWrites(st, claim, now);
    if ws != [] {
      ApplyOne(st, ws[0]);
      assert ws == [ws[0]];
    }
  }

  /** A navigation that opens the candidate: the new client is noted, and the page that asked is let go. */
  lemma NavigationOutcome(p: Platform, st: Store, request: Request, now: int)
    requires Inv(p, st) && WholeCandidate(p, st) && OpensCandidate(st, request, now)
    requires CanAnswer(p, st.manifests[st.candidate.value.releaseId], request)
    ensures
      var st' := ApplyAll(st, FetchWrites(st, request, now));
      st'.active == st.active && st'.manifests == st.manifests && CacheAt(st', st.candidate.value.releaseId) == CacheAt(st, st.candidate.value.releaseId)
      && st'.candidate == Some(st.candidate.value.(clientId := Some(request.resultingClientId), validationSourceClientId := None))
  {
    var id := st.candidate.value.releaseId;
    WholeAnswers(p, CacheAt(st, id), st.manifests[id], request.path);
    WholeAnswers(p, CacheAt(st, id), st.manifests[id], INDEX);
    var ws := FetchWrites(st, request, now);
    ApplyTwo(st, ws[0], ws[1]);
    assert ws == [ws[0], ws[1]];
  }

  /** The confirmation names the candidate's client, generation, release and nonce, and the server is compatible. */
  predicate Confirmable(p: Platform, st: Store, claim: Claim, meta: Meta, now: int) {
    st.candidate.Some? && st.candidate.value.releaseId in st.manifests && InTime(st.candidate.value, now)
    && st.candidate.value.clientId == Some(claim.source) && st.candidate.value.nonce == Some(claim.nonce)
    && st.candidate.value.generation == claim.generation && st.candidate.value.releaseId == claim.releaseId
    && ApiError(p, st.manifests[claim.releaseId], meta).None?
  }

  /** A whole candidate that is confirmed becomes the active release. */
  lemma ConfirmationOutcome(p: Platform, st: Store, claim: Claim, meta: Meta, now: int)
    requires Inv(p, st) && WholeCandidate(p, st) && Confirmable(p, st, claim, meta, now)
    ensures
      var st' := ApplyAll(st, PromoteWrites(p, st, claim, meta, now));
      st'.active == Some(Pointer(claim.generation, claim.releaseId)) && st'.candidate.None? && st'.manifests == st.manifests
      && claim.releaseId in st'.caches && st'.caches[claim.releaseId] == CacheAt(st, claim.releaseId)
      && Shows(st', st.manifests[claim.releaseId], claim.generation, Status.Active, st.manifests[claim.releaseId].totalBytes, now)
  {
    var ws := PromoteWrites(p, st, claim, meta, now);
    assert |CacheAt(st, claim.releaseId)| == st.candidate.value.expectedResourceCount;
    ApplyTwo(st, ws[0], ws[1]);
    assert ws == [ws[0], ws[1]];
  }

  /**
   * A whole candidate that its page validates, that a navigation opens and that the opened client confirms, the last two within
   * fifteen seconds of the first, becomes the active release, with every file it had.
   */
  lemma WholeCandidateActivates(p: Platform, st: Store, claim: Claim, t: int, request: Request, t1: int, meta: Meta, t2: int)
    requires Inv(p, st) && WholeCandidate(p, st) && t1 <= t + 15_000 && t2 <= t + 15_000
    requires st.candidate.value.generation == claim.generation && st.candidate.value.releaseId == claim.releaseId
    requires st.candidate.value.validationSourceClientId.None? || !InTime(st.candidate.value, t)
    requires request.navigate && request.routed && request.resultingClientId != "" && CanAnswer(p, st.manifests[claim.releaseId], request)
    requires ApiError(p, st.manifests[claim.releaseId], meta).None?
    ensures
      var st1 := After(p, st, Step(ValidateCandidate(claim), t, 1));
      var st2 := After(p, st1, Step(FetchEvent(request), t1, 2));
      var st3 := After(p, st2, Step(StartupConfirmed(claim.(source := request.resultingClientId), meta), t2, 2));
      st3.active == Some(Pointer(claim.generation, claim.releaseId)) && claim.releaseId in st3.manifests && claim.releaseId in st3.caches
      && Complete(p, st3.caches[claim.releaseId], st3.manifests[claim.releaseId])
  {
    var m := st.manifests[claim.releaseId];
    var c := st.candidate.value;
    var st1 := ValidateStep(p, st, c, m, claim, t);
    var c1 := Validated(c, claim, t);
    var st2 := NavigateStep(p, st1, c1, m, request, t1);
    var c2 := c1.(clientId := Some(request.resultingClientId), validationSourceClientId := None);
    ConfirmStep(p, st2, c2, m, claim.(source := request.resultingClientId), meta, t2);
  }

  /** The candidate is `c`, of release `m`, and its cache is whole. */
  ghost predicate Whole(p: Platform, st: Store, c: Candidate, m: Manifest) {
    Inv(p, st) && WholeCandidate(p, st) && st.candidate == Some(c) && st.manifests[c.releaseId] == m
  }

  function Validated(c: Candidate, claim: Claim, t: int): Candidate {
    c.(nonce := Some(claim.nonce), validationExpiresAt := Some(t + 15_000), validationSourceClientId := Some(claim.source))
  }

  lemma ValidateStep(p: Platform, st: Store, c: Candidate, m: Manifest, claim: Claim, t: int) returns (st': Store)
    requires Whole(p, st, c, m) && c.generation == claim.generation && c.releaseId == claim.releaseId
    requires c.validationSourceClientId.None? || !InTime(c, t)
    ensures st' == After(p, st, Step(ValidateCandidate(claim), t, 1)) && Whole(p, st', Validated(c, claim, t), m)
  {
    var step := Step(ValidateCandidate(claim), t, 1);
    st' := After(p, st, step);
    ValidationOutcome(p, st, claim, t);
    StepKeeps(p, st, step);
  }

  lemma NavigateStep(p: Platform, st: Store, c: Candidate, m: Manifest, request: Request, t: int) returns (st': Store)
    requires Whole(p, st, c, m) && OpensCandidate(st, request, t) && CanAnswer(p, m, request)
    ensures st' == After(p, st, Step(FetchEvent(request), t, 2))
    ensures Whole(p, st', c.(clientId := Some(request.resultingClientId), validationSourceClientId := None), m)
  {
    var step := Step(FetchEvent(request), t, 2);
    st' := After(p, st, step);
    NavigationWrites(p, st, c, m, request, t);
    NavigationOutcome(p, st, request, t);
    StepKeeps(p, st, step);
  }

  lemma NavigationWrites(p: Platform, st: Store, c: Candidate, m: Manifest, request: Request, t: int)
    requires Whole(p, st, c, m) && OpensCandidate(st, request, t) && CanAnswer(p, m, request)
    ensures |FetchWrites(st, request, t)| == 2
  {
    WholeAnswers(p, CacheAt(st, c.releaseId), m, request.path);
    WholeAnswers(p, CacheAt(st, c.releaseId), m, INDEX);
  }

  lemma ConfirmStep(p: Platform, st: Store, c: Candidate, m: Manifest, claim: Claim, meta: Meta, t: int)
    requires Whole(p, st, c, m) && Confirmable(p, st, claim, meta, t)
    ensures
      var st' := After(p, st, Step(StartupConfirmed(claim, meta), t, 2));
      st'.active == Some(Pointer(claim.generation, claim.releaseId)) && claim.releaseId in st'.manifests && claim.releaseId in st'.caches
      && Complete(p, st'.caches[claim.releaseId], st'.manifests[claim.releaseId])
  {
    ConfirmationOutcome(p, st, claim, meta, t);
    assert |PromoteWrites(p, st, claim, meta, t)| == 2;
  }

  /** The candidate's own client can give it up; nobody else can. */
  lemma ReportOutcome(st: Store, claim: Claim, now: int)
    ensures
      var st' := ApplyAll(st, ReportWrites(st, claim, now));
      if st.candidate.Some? && st.candidate.value.clientId == Some(claim.source) && st.candidate.value.nonce == Some(claim.nonce)
         && st.candidate.value.generation == claim.generation && st.candidate.value.releaseId == claim.releaseId
      then st'.candidate.None? && st'.active == st.active && st'.manifests == st.manifests - {claim.releaseId} && st'.caches == st.caches - {claim.releaseId}
           && (claim.releaseId in st.manifests ==> Shows(st', st.manifests[claim.releaseId], claim.generation, Status.Failed, 0, now))
      else st' == st
  {
    var ws := ReportWrites(st, claim, now);
    if ws != [] {
      ApplyTwo(st, ws[0], ws[1]);
      assert ws == [ws[0], ws[1]];
    }
  }

  // ---- what counts as a release ----

  predicate Hex64(s: string) {
    |s| == 64 && forall i :: 0 <= i < |s| ==> '0' <= s[i] <= '9' || 'a' <= s[i] <= 'f'
  }

  /** A manifest is accepted exactly when every field and every resource is as the worker demands and the sizes add up. */
  lemma ManifestIff(p: Platform, m: Manifest)
    ensures
      Validate(p, Some(m)).Ok? <==>
      Hex64(m.releaseId.hex) && m.version != "" && m.builtAt.Some? && 0 < m.totalBytes <= 33_554_432
      && 0 < |m.resources| <= 256 && m.apiMinimum == [118, 49] && m.apiMaximum == [118, 49] && m.workerMinimum <= 1 && 1 <= m.workerMaximum
      && (forall r :: r in m.resources ==> p.path(r.url).Some? && 0 < r.bytes <= 8_388_608 && Hex64(r.sha256))
      && (forall i, j :: 0 <= i < j < |m.resources| ==> p.path(m.resources[i].url) != p.path(m.resources[j].url))
      && Total(m.resources) == m.totalBytes
    ensures Validate(p, Some(m)).Ok? ==> Validate(p, Some(m)).value == m
  {
    assert forall s :: IsDigest(s) <==> Hex64(s);
    assert forall i :: 0 <= i < |m.resources| ==> m.resources[i] in m.resources;
  }

  /** The server is compatible with an accepted release exactly when it speaks its API and protocol and asks for no newer release. */
  lemma CompatibleIff(p: Platform, m: Manifest, meta: Meta)
    requires Acceptable(p, m)
    ensures
      ApiError(p, m, meta).None? <==>
      meta.Meta? && meta.apiVersion == [118, 49] && meta.workerProtocolVersion == 1
      && p.version(m.version).Some? && p.version(meta.minimumWebRelease).Some?
      && var v, least := p.version(m.version).value, p.version(meta.minimumWebRelease).value;
         v.major > least.major || (v.major == least.major && (v.minor > least.minor || (v.minor == least.minor && v.patch >= least.patch)))
  {
    if meta.Meta? {
      LessTotal(meta.apiVersion, V1);
      LessIrreflexive(V1);
    }
  }

  /** A resource arrives exactly when its stream ends by itself with the bytes and the digest the manifest names. */
  lemma FetchedIff(p: Platform, feed: Feed, i: nat, r: Resource)
    ensures
      Fetched(p, feed, i, r).Ok? <==>
      i < |feed.responses| && feed.responses[i].Body?
      && var stream := feed.responses[i].stream;
         !stream.broken && (stream.abortAt.None? || stream.abortAt.value > |stream.chunks|)
         && |Joined(stream.chunks)| == r.bytes && p.sha256(Joined(stream.chunks)) == r.sha256
    ensures Fetched(p, feed, i, r).Ok? ==> Fetched(p, feed, i, r).value == Joined(feed.responses[i].stream.chunks)
  {
    if i < |feed.responses| && feed.responses[i].Body? {
      ReadIff(feed.responses[i].stream, r.bytes, 0);
    }
  }

  // ---- one download at a time ----

  /** While a lease runs, no download does anything. */
  lemma LeaseExcludes(p: Platform, st: Store, feed: Feed, owner: string, now: int)
    requires st.lease.Some? && now < st.lease.value.expiresAt
    ensures DownloadWrites(p, st, feed, owner, now) == []
  {
  }

  predicate KeepsLease(w: Write, lease: Lease) {
    w.WriteLease? ==> w.lease == Some(lease)
  }

  lemma {:induction false} ResourcesKeepLease(p: Platform, m: Manifest, feed: Feed, lease: Lease, now: int, i: nat, downloaded: int)
    requires i <= |m.resources|
    ensures forall w :: w in ResourceWrites(p, m, feed, lease, now, i, downloaded).0 ==> KeepsLease(w, lease)
    decreases |m.resources| - i
  {
    if i < |m.resources| {
      ResourceSplits(p, m, feed, lease, now, i, downloaded);
      var body := Fetched(p, feed, i, m.resources[i]);
      if body.Ok? {
        ResourcesKeepLease(p, m, feed, lease, now, i + 1, downloaded + |body.value|);
      }
    }
  }

  lemma {:induction false} LeaseStays(st: Store, ws: seq<Write>, lease: Lease)
    requires st.lease == Some(lease) && forall w :: w in ws ==> KeepsLease(w, lease)
    ensures ApplyAll(st, ws).lease == Some(lease)
  {
    if ws != [] {
      LeaseStays(st, ws[..|ws| - 1], lease);
      assert ws[|ws| - 1] in ws;
    }
  }

  /** A download takes the lease first, for seventy-five seconds and with the next generation, and gives it back last: killed in
      between it leaves the lease to run out, and nobody else downloads until then. */
  lemma LeaseOutcome(p: Platform, st: Store, feed: Feed, owner: string, now: int, k: nat)
    requires st.lease.None? || st.lease.value.expiresAt <= now
    requires k <= |DownloadWrites(p, st, feed, owner, now)|
    ensures
      var ws := DownloadWrites(p, st, feed, owner, now);
      var generation := if st.lease.Some? then st.lease.value.generation + 1 else 1;
      |ws| >= 2
      && ApplyAll(st, ws[..k]).lease
         == if k == 0 then st.lease else if k == |ws| then None else Some(Lease(now + 75_000, generation, owner))
  {
    var lease := NewLease(st, owner, now);
    var ws := DownloadWrites(p, st, feed, owner, now);
    var update := UpdateWrites(p, st, feed, lease, now);
    assert ws == [WriteLease(Some(lease))] + update + [WriteLease(None)];
    UpdateKeepsLease(p, st, feed, lease, now);
    assert ws[..|ws|] == ws && ws[..0] == [];
    if k == |ws| {
      ApplyMore(st, ws[..k - 1], ws[k - 1]);
      assert ws[..k - 1] + [ws[k - 1]] == ws;
    } else if k > 0 {
      assert ws[..k] == [WriteLease(Some(lease))] + update[..k - 1];
      ApplyOne(st, WriteLease(Some(lease)));
      ApplyConcat(st, [WriteLease(Some(lease))], update[..k - 1]);
      assert forall w :: w in update[..k - 1] ==> w in update;
      LeaseStays(Apply(st, WriteLease(Some(lease))), update[..k - 1], lease);
    }
  }

  lemma UpdateKeepsLease(p: Platform, st: Store, feed: Feed, lease: Lease, now: int)
    ensures forall w :: w in UpdateWrites(p, st, feed, lease, now) ==> KeepsLease(w, lease)
  {
    var offered := Offered(p, StartUpdate(feed, lease.ownerId));
    if offered.Some? {
      ResourcesKeepLease(p, offered.value, feed, lease, now, 0, 0);
    }
  }

  /** A download that offers no acceptable manifest forgets the candidate; one that offers the active release changes nothing; one that
      the server is not compatible with forgets the candidate and its manifest and says so. */
  lemma RefusedDownload(p: Platform, st: Store, feed: Feed, owner: string, now: int)
    requires (st.lease.None? || st.lease.value.expiresAt <= now) && !Proceeds(p, st, feed, owner, now)
    ensures
      var st' := ApplyAll(st, DownloadWrites(p, st, feed, owner, now));
      var offered := Offered(p, StartUpdate(feed, owner));
      st'.lease.None? && st'.active == st.active && st'.caches == st.caches
      && if offered.None? then st'.candidate.None? && st'.manifests == st.manifests && st'.progress == st.progress
         else if st.active.Some? && st.active.value.releaseId == offered.value.releaseId then
           st'.candidate == st.candidate && st'.manifests == st.manifests && st'.progress == st.progress
         else st'.candidate.None? && st'.manifests == st.manifests - {offered.value.releaseId}
              && Shows(st', offered.value, if st.lease.Some? then st.lease.value.generation + 1 else 1, Status.Failed, 0, now)
  {
    var lease := NewLease(st, owner, now);
    var update := UpdateWrites(p, st, feed, lease, now);
    ApplyAround(st, WriteLease(Some(lease)), update, WriteLease(None));
    if update != [] {
      ApplyOne(Apply(st, WriteLease(Some(lease))), update[0]);
      assert update == [update[0]];
    }
  }

  // ---- progress ----

  function BytesOf(resources: seq<Resource>): int {
    if resources == [] then 0 else resources[0].bytes + BytesOf(resources[1..])
  }

  lemma ApplyOneResource(st: Store, p: Platform, m: Manifest, lease: Lease, now: int, i: nat, body: Bytes, downloaded: int)
    requires i < |m.resources| && p.path(m.resources[i].url).Some?
    ensures Shows(ApplyAll(st, OneWrites(p, m, lease, now, i, body, downloaded)), m, lease.generation, Status.Downloading, downloaded, now)
  {
    var ws := OneWrites(p, m, lease, now, i, body, downloaded);
    ApplyThree(st, ws[0], ws[1], ws[2]);
    assert ws == [ws[0], ws[1], ws[2]];
  }

  /** After 3n of the writes the pages are told of that many bytes. */
  ghost predicate Counted(st: Store, ws: seq<Write>, m: Manifest, lease: Lease, now: int, bytes: int, n: nat) {
    |ws| >= 3 * n && (n > 0 ==> Shows(ApplyAll(st, ws[..3 * n]), m, lease.generation, Status.Downloading, bytes, now))
  }

  lemma CountMore(
      p: Platform, st: Store, m: Manifest, lease: Lease, now: int, i: nat, body: Bytes, next: int, rest: seq<Write>, bytes: int, n: nat)
    requires i < |m.resources| && p.path(m.resources[i].url).Some? && n > 0 && (n == 1 ==> bytes == next)
    requires Counted(ApplyAll(st, OneWrites(p, m, lease, now, i, body, next)), rest, m, lease, now, bytes, n - 1)
    ensures Counted(st, OneWrites(p, m, lease, now, i, body, next) + rest, m, lease, now, bytes, n)
  {
    var first := OneWrites(p, m, lease, now, i, body, next);
    assert (first + rest)[..3 * n] == first + rest[..3 * (n - 1)];
    ApplyConcat(st, first, rest[..3 * (n - 1)]);
    ApplyOneResource(st, p, m, lease, now, i, body, next);
    assert n == 1 ==> rest[..0] == [];
  }

  /** Once the next n resources have arrived, three writes each, the pages are told how many bytes there are. */
  lemma {:induction false} ProgressCounts(p: Platform, st: Store, m: Manifest, feed: Feed, lease: Lease, now: int, i: nat, downloaded: int, n: nat)
    requires i + n <= |m.resources| && ResourcesAllowed(p, m.resources)
    requires forall k :: i <= k < i + n ==> Fetched(p, feed, k, m.resources[k]).Ok?
    ensures Counted(st, ResourceWrites(p, m, feed, lease, now, i, downloaded).0, m, lease, now, downloaded + BytesOf(m.resources[i..i + n]), n)
    decreases n
  {
    if n > 0 {
      var body := Fetched(p, feed, i, m.resources[i]).value;
      var next := downloaded + |body|;
      ResourceSplits(p, m, feed, lease, now, i, downloaded);
      FetchedIff(p, feed, i, m.resources[i]);
      BytesMore(m.resources, i, n);
      ProgressCounts(p, ApplyAll(st, OneWrites(p, m, lease, now, i, body, next)), m, feed, lease, now, i + 1, next, n - 1);
      CountMore(p, st, m, lease, now, i, body, next, ResourceWrites(p, m, feed, lease, now, i + 1, next).0,
                downloaded + BytesOf(m.resources[i..i + n]), n);
    }
  }

  lemma BytesMore(resources: seq<Resource>, i: nat, n: nat)
    requires n > 0 && i + n <= |resources|
    ensures BytesOf(resources[i..i + n]) == resources[i].bytes + BytesOf(resources[i + 1..i + n])
  {
    assert resources[i..i + n][1..] == resources[i + 1..i + n];
  }
}
