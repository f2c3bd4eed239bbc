/**
 * The one way a release loses its integrity: a download killed while it refills the cache of the stored candidate with files of
 * another manifest that has the same release id. The exact condition, and a run that gets there.
 */
module ReleaseRefills {
  import opened Prelude
  import opened JsText
  import opened ReleaseManifests
  import opened ReleaseSpec
  import opened ReleaseIntegrity

  // ---- the files a sequence of writes leaves in a cache ----

  predicate Covers(w: Write, id: ReleaseId, path: Path) {
    (w.DeleteCache? && w.releaseId == id) || (w.PutResource? && w.releaseId == id && w.path == path)
  }

  /** The j-th write stores a file that no later one deletes or replaces. */
  predicate Lasts(ws: seq<Write>, id: ReleaseId, j: nat) {
    j < |ws| && ws[j].PutResource? && ws[j].releaseId == id
    && forall l :: j < l < |ws| ==> !Covers(ws[l], id, ws[j].path)
  }

  predicate Foreign(p: Platform, resources: seq<Resource>, ws: seq<Write>, id: ReleaseId, j: nat) {
    Lasts(ws, id, j) && !Listed(p, resources, ws[j].path, ws[j].body)
  }

  ghost predicate LeavesAt(p: Platform, resources: seq<Resource>, ws: seq<Write>, id: ReleaseId, path: Path) {
    exists j: nat :: Foreign(p, resources, ws, id, j) && ws[j].path == path
  }

  ghost predicate Wrong(p: Platform, resources: seq<Resource>, cache: Cache, path: Path) {
    path in cache && !Listed(p, resources, path, cache[path])
  }

  lemma LeavesMore(p: Platform, resources: seq<Resource>, ws: seq<Write>, w: Write, id: ReleaseId, path: Path)
    ensures LeavesAt(p, resources, ws + [w], id, path) <==>
            if Covers(w, id, path) then w.PutResource? && !Listed(p, resources, path, w.body) else LeavesAt(p, resources, ws, id, path)
  {
    var more := ws + [w];
    if Covers(w, id, path) {
      if w.PutResource? && !Listed(p, resources, path, w.body) {
        assert Foreign(p, resources, more, id, |ws|);
      }
      if j: nat :| Foreign(p, resources, more, id, j) && more[j].path == path {
        assert Lasts(more, id, j) && more[|ws|] == w;
        assert j == |ws|;
      }
    } else {
      if j: nat :| Foreign(p, resources, more, id, j) && more[j].path == path {
        assert j < |ws|;
        assert Lasts(ws, id, j) by {
          forall l | j < l < |ws| ensures !Covers(ws[l], id, ws[j].path) {
            assert more[l] == ws[l];
          }
        }
        assert Foreign(p, resources, ws, id, j);
      }
      if j: nat :| Foreign(p, resources, ws, id, j) && ws[j].path == path {
        assert Foreign(p, resources, more, id, j);
      }
    }
  }

  lemma {:induction false} WrongIff(p: Platform, st: Store, resources: seq<Resource>, ws: seq<Write>, id: ReleaseId, path: Path)
    requires AllGenuine(p, CacheAt(st, id), resources)
    ensures Wrong(p, resources, CacheAt(ApplyAll(st, ws), id), path) <==> LeavesAt(p, resources, ws, id, path)
  {
    if ws != [] {
      var n := |ws| - 1;
      WrongIff(p, st, resources, ws[..n], id, path);
      assert ws == ws[..n] + [ws[n]];
      LeavesMore(p, resources, ws[..n], ws[n], id, path);
    }
  }

  // ---- the exact condition ----

  /** The durable writes the worker makes before it is killed. */
  function Made(p: Platform, st: Store, step: Step): seq<Write> {
    var ws := Writes(p, st, step.event, step.now);
    if step.survived < |ws| then ws[..step.survived] else ws
  }

  ghost predicate Sealed(ws: seq<Write>, id: ReleaseId) {
    exists w :: w in ws && Seals(w, id)
  }

  /** A download that is cut before it replaces or forgets the stored candidate, with a file in that candidate's cache that is not
      one of its resources. */
  ghost predicate Strays(p: Platform, st: Store, step: Step) {
    step.event.StartUpdate? && st.candidate.Some? && st.candidate.value.releaseId in st.manifests
    && !Sealed(Made(p, st, step), st.candidate.value.releaseId)
    && exists j: nat :: Foreign(p, st.manifests[st.candidate.value.releaseId].resources, Made(p, st, step), st.candidate.value.releaseId, j)
  }

  /** What a download of release `id` writes. */
  predicate Downloading(w: Write, id: ReleaseId) {
    Seals(w, id) || (KeepsManifests(w) && (w.PutResource? ==> w.releaseId == id))
  }

  lemma {:induction false} ResourcesDownload(p: Platform, m: Manifest, feed: Feed, lease: Lease, now: int, i: nat, downloaded: int)
    requires i <= |m.resources|
    ensures forall w :: w in ResourceWrites(p, m, feed, lease, now, i, downloaded).0 ==> KeepsManifests(w) && (w.PutResource? ==> w.releaseId == m.releaseId)
    decreases |m.resources| - i
  {
    if i < |m.resources| {
      ResourceSplits(p, m, feed, lease, now, i, downloaded);
      var body := Fetched(p, feed, i, m.resources[i]);
      if body.Ok? {
        ResourcesDownload(p, m, feed, lease, now, i + 1, downloaded + |body.value|);
      }
    }
  }

  /** Only the last write but one, before the lease is given back, seals the download. */
  lemma DownloadShape(p: Platform, st: Store, feed: Feed, owner: string, now: int)
    requires Attempts(p, st, feed, owner, now)
    ensures
      var ws := DownloadWrites(p, st, feed, owner, now);
      var id := Offered(p, StartUpdate(feed, owner)).value.releaseId;
      |ws| >= 3 && Seals(ws[|ws| - 2], id) && ws[|ws| - 1] == WriteLease(None)
      && forall j :: 0 <= j < |ws| - 2 ==> Downloading(ws[j], id) && !Seals(ws[j], id)
  {
    var m := Offered(p, StartUpdate(feed, owner)).value;
    var lease := NewLease(st, owner, now);
    ResourcesDownload(p, m, feed, lease, now, 0, 0);
    UpdateShape(p, st, m, feed, owner, lease, now);
    var update := UpdateWrites(p, st, feed, lease, now);
    var ws := DownloadWrites(p, st, feed, owner, now);
    assert ws == [WriteLease(Some(lease))] + update + [WriteLease(None)];
    forall j | 0 <= j < |ws| - 2 ensures Downloading(ws[j], m.releaseId) && !Seals(ws[j], m.releaseId) {
      if j > 0 {
        assert ws[j] == update[j - 1];
      }
    }
  }

  lemma UpdateShape(p: Platform, st: Store, m: Manifest, feed: Feed, owner: string, lease: Lease, now: int)
    requires Attempts(p, st, feed, owner, now) && m == Offered(p, StartUpdate(feed, owner)).value
    ensures
      var update := UpdateWrites(p, st, feed, lease, now);
      update != [] && Seals(update[|update| - 1], m.releaseId)
      && forall j :: 0 <= j < |update| - 1 ==> Downloading(update[j], m.releaseId) && !Seals(update[j], m.releaseId)
  {
    if ApiError(p, m, feed.meta).None? {
      var resources := ResourceWrites(p, m, feed, lease, now, 0, 0);
      ResourcesDownload(p, m, feed, lease, now, 0, 0);
      var start := [DeleteCache(m.releaseId), OpenCache(m.releaseId), WriteProgress(StateOf(m, lease.generation, Status.Downloading, 0, now))];
      var update := CandidateWrites(p, m, feed, lease, now);
      assert update[..3] == start;
      forall j | 0 <= j < |update| - 1 ensures Downloading(update[j], m.releaseId) && !Seals(update[j], m.releaseId) {
        if j < 3 {
          assert update[j] == start[j];
        } else if j < 3 + |resources.0| {
          assert update[j] == resources.0[j - 3];
          assert resources.0[j - 3] in resources.0;
        } else {
          assert update[j] == DeleteCache(m.releaseId);
        }
      }
    }
  }

  lemma {:induction false} CandidateUntouched(st: Store, ws: seq<Write>)
    requires forall w :: w in ws ==> KeepsManifests(w)
    ensures ApplyAll(st, ws).candidate == st.candidate && ApplyAll(st, ws).active == st.active
  {
    if ws != [] {
      CandidateUntouched(st, ws[..|ws| - 1]);
      assert ws[|ws| - 1] in ws;
    }
  }

  /** A download of the candidate's own release, cut before it is sealed. */
  lemma CutKeepsIff(p: Platform, st: Store, ws: seq<Write>, id: ReleaseId)
    requires Inv(p, st) && st.candidate.Some? && st.candidate.value.releaseId == id
    requires ActiveOk(p, ApplyAll(st, ws)) && forall w :: w in ws ==> KeepsManifests(w)
    ensures Inv(p, ApplyAll(st, ws)) <==> !exists j: nat :: Foreign(p, st.manifests[id].resources, ws, id, j)
  {
    var resources := st.manifests[id].resources;
    var st' := ApplyAll(st, ws);
    Untouched(st, ws);
    CandidateUntouched(st, ws);
    forall path ensures Wrong(p, resources, CacheAt(st', id), path) <==> LeavesAt(p, resources, ws, id, path) {
      WrongIff(p, st, resources, ws, id, path);
    }
    if j: nat :| Foreign(p, resources, ws, id, j) {
      assert LeavesAt(p, resources, ws, id, ws[j].path);
      assert Wrong(p, resources, CacheAt(st', id), ws[j].path);
      assert !AllGenuine(p, CacheAt(st', id), resources);
    } else {
      forall path | path in CacheAt(st', id) ensures Listed(p, resources, path, CacheAt(st', id)[path]) {
        assert !LeavesAt(p, resources, ws, id, path);
        assert !Wrong(p, resources, CacheAt(st', id), path);
      }
    }
  }

  /** An attempt for the candidate's own release. */
  lemma AttemptKeepsIff(p: Platform, st: Store, step: Step)
    requires Inv(p, st) && step.event.StartUpdate? && Attempts(p, st, step.event.feed, step.event.owner, step.now)
    requires st.candidate.Some? && st.candidate.value.releaseId == Offered(p, step.event).value.releaseId
    ensures Inv(p, After(p, st, step)) <==> !Strays(p, st, step)
  {
    var feed, owner, now := step.event.feed, step.event.owner, step.now;
    var ws := DownloadWrites(p, st, feed, owner, now);
    var id := st.candidate.value.releaseId;
    var made := Made(p, st, step);
    var k := |made|;
    DownloadShape(p, st, feed, owner, now);
    assert ws[..|ws|] == ws;
    AttemptKeepsActive(p, st, feed, owner, now, k);
    if k >= |ws| - 1 {
      assert made[|ws| - 2] == ws[|ws| - 2];
      assert Sealed(made, id);
      AttemptKeepsActive(p, st, feed, owner, now, |ws|);
      assert ws[..|ws| - 1] + [WriteLease(None)] == ws;
      ApplyMore(st, ws[..|ws| - 1], WriteLease(None));
    } else {
      assert forall w :: w in made ==> Downloading(w, id) && !Seals(w, id);
      CutKeepsIff(p, st, made, id);
    }
  }

  /** Any other download leaves the candidate's cache alone or never gets to it. */
  lemma OthersDoNotStray(p: Platform, st: Store, step: Step)
    requires step.event.StartUpdate? && st.candidate.Some?
    requires !(Attempts(p, st, step.event.feed, step.event.owner, step.now)
               && Offered(p, step.event).value.releaseId == st.candidate.value.releaseId)
    ensures !Strays(p, st, step)
  {
    var feed, owner, now := step.event.feed, step.event.owner, step.now;
    var ws := DownloadWrites(p, st, feed, owner, now);
    if Attempts(p, st, feed, owner, now) {
      DownloadShape(p, st, feed, owner, now);
    }
    assert forall w :: w in ws ==> !(w.PutResource? && w.releaseId == st.candidate.value.releaseId);
    assert forall w :: w in Made(p, st, step) ==> w in ws;
  }

  /** Exactly the steps that stray break the invariant. */
  lemma StepKeepsIff(p: Platform, st: Store, step: Step)
    requires Inv(p, st)
    ensures Inv(p, After(p, st, step)) <==> !Strays(p, st, step)
  {
    if step.event.StartUpdate? && st.candidate.Some? {
      if Attempts(p, st, step.event.feed, step.event.owner, step.now) && Offered(p, step.event).value.releaseId == st.candidate.value.releaseId {
        AttemptKeepsIff(p, st, step);
      } else {
        OthersDoNotStray(p, st, step);
        if Honest(p, st, step.event) {
          StepKeeps(p, st, step);
        } else {
          assert DownloadWrites(p, st, step.event.feed, step.event.owner, step.now) == [];
        }
      }
    } else {
      StepKeeps(p, st, step);
    }
  }

  /** The state before the k-th step satisfies the invariant. */
  ghost predicate InvAt(p: Platform, steps: seq<Step>, k: nat)
    requires k <= |steps|
  {
    Inv(p, Run(p, steps[..k]))
  }

  ghost predicate StraysAt(p: Platform, steps: seq<Step>, k: nat)
    requires k < |steps|
  {
    Strays(p, Run(p, steps[..k]), steps[k])
  }

  lemma RunStep(p: Platform, steps: seq<Step>, k: nat)
    requires k < |steps| && InvAt(p, steps, k)
    ensures InvAt(p, steps, k + 1) <==> !StraysAt(p, steps, k)
  {
    assert steps[..k + 1][..k] == steps[..k];
    assert Run(p, steps[..k + 1]) == After(p, Run(p, steps[..k]), steps[k]);
    StepKeepsIff(p, Run(p, steps[..k]), steps[k]);
  }

  lemma {:induction false} NoStrayUpTo(p: Platform, steps: seq<Step>, k: nat)
    requires k <= |steps| && forall j :: 0 <= j < k ==> !StraysAt(p, steps, j)
    ensures InvAt(p, steps, k)
  {
    if k == 0 {
      assert steps[..0] == [];
    } else {
      NoStrayUpTo(p, steps, k - 1);
      RunStep(p, steps, k - 1);
    }
  }

  /** The invariant holds throughout a run exactly when no step of it strays. */
  lemma RunKeepsIff(p: Platform, steps: seq<Step>)
    ensures (forall k :: 0 <= k <= |steps| ==> InvAt(p, steps, k)) <==> (forall k :: 0 <= k < |steps| ==> !StraysAt(p, steps, k))
  {
    if forall k :: 0 <= k <= |steps| ==> InvAt(p, steps, k) {
      forall k | 0 <= k < |steps| ensures !StraysAt(p, steps, k) {
        assert InvAt(p, steps, k) && InvAt(p, steps, k + 1);
        RunStep(p, steps, k);
      }
    }
    if forall k :: 0 <= k < |steps| ==> !StraysAt(p, steps, k) {
      forall k | 0 <= k <= |steps| ensures InvAt(p, steps, k) {
        NoStrayUpTo(p, steps, k);
      }
    }
  }

  // ---- a run that strays ----

  function Hex(c: char): string {
    seq(64, _ => c)
  }

  const R: ReleaseId := ReleaseId(Hex('a'))

  const PLATFORM: Platform :=
    Platform(url => Some(Path(url)), body => if body == [1] then Hex('a') else Hex('b'), version => Some(Version(1, 0, 0)))

  const META: Meta := Meta(V1, "1", 1)

  /** Two releases that share the id and the size of their one file. */
  function Release(digest: char): Manifest {
    Manifest(R, "1", Some(0), V1, V1, 1, 1, [Resource("/index.html", 1, Hex(digest))], 1)
  }

  function Source(digest: char, byte: Byte): Feed {
    Feed(Some(Some(Release(digest))), META, [Body(Stream([[byte]], None, false))])
  }

  lemma ReleaseAccepted(digest: char)
    requires 'a' <= digest <= 'f'
    ensures Acceptable(PLATFORM, Release(digest)) && Validate(PLATFORM, Some(Release(digest))) == Ok(Release(digest))
    ensures ApiError(PLATFORM, Release(digest), META) == None
  {
    var m := Release(digest);
    assert m.resources[..0] == [];
    assert Total(m.resources[..0]) == 0 && Total(m.resources) == 1;
    LessIrreflexive(V1);
  }

  lemma FileFetched(digest: char, byte: Byte)
    requires PLATFORM.sha256([byte]) == Hex(digest)
    ensures Fetched(PLATFORM, Source(digest, byte), 0, Release(digest).resources[0]) == Ok([byte])
  {
    var stream := Stream([[byte]], None, false);
    assert stream.chunks[..0] == [];
    assert Joined(stream.chunks[..0]) == [] && Joined(stream.chunks) == [byte];
    ReadIff(stream, 1, 0);
  }

  lemma Download(digest: char, byte: Byte, st: Store, now: int) returns (lease: Lease)
    requires 'a' <= digest <= 'f' && PLATFORM.sha256([byte]) == Hex(digest) && st.lease.None? && st.active.None?
    ensures
      var m := Release(digest);
      lease == NewLease(st, "owner", now)
      && DownloadWrites(PLATFORM, st, Source(digest, byte), "owner", now)
      == [WriteLease(Some(lease)), DeleteCache(R), OpenCache(R), WriteProgress(StateOf(m, 1, Status.Downloading, 0, now)),
          PutResource(R, INDEX, [byte]), WriteLease(Some(lease)), WriteProgress(StateOf(m, 1, Status.Downloading, 1, now)),
          WriteReady(m, NewCandidate(m, 1), StateOf(m, 1, Ready, 1, now)), WriteLease(None)]
  {
    var m, feed := Release(digest), Source(digest, byte);
    lease := NewLease(st, "owner", now);
    ReleaseAccepted(digest);
    FileFetched(digest, byte);
    assert ResourceWrites(PLATFORM, m, feed, lease, now, 1, 1) == ([], false);
    assert Received(PLATFORM, m, feed, 1, 1) == 1;
  }

  const PAGE: Claim := Claim("page", 1, R, "nonce")
  const CLIENT: Claim := PAGE.(source := "client")

  /** One release is downloaded, the download of the other is killed after five writes, and the first is validated and confirmed. */
  const STRAY: seq<Step> := [
    Step(StartUpdate(Source('a', 1), "owner"), 0, 9),
    Step(StartUpdate(Source('b', 2), "owner"), 1, 5),
    Step(ValidateCandidate(PAGE), 2, 1),
    Step(FetchEvent(Request("", "client", true, INDEX, false, true)), 3, 2),
    Step(StartupConfirmed(CLIENT, META), 4, 2)]

  lemma ApplyFive(st: Store, ws: seq<Write>)
    requires |ws| >= 5
    ensures ApplyAll(st, ws[..5]) == Apply(Apply(Apply(Apply(Apply(st, ws[0]), ws[1]), ws[2]), ws[3]), ws[4])
  {
    ApplyThree(st, ws[0], ws[1], ws[2]);
    assert ws[..3] == [ws[0], ws[1], ws[2]];
    ApplyMore(st, ws[..3], ws[3]);
    assert ws[..4] == ws[..3] + [ws[3]];
    ApplyMore(st, ws[..4], ws[4]);
    assert ws[..5] == ws[..4] + [ws[4]];
  }

  lemma ApplyNine(st: Store, ws: seq<Write>)
    requires |ws| == 9
    ensures ApplyAll(st, ws) == Apply(Apply(Apply(Apply(ApplyAll(st, ws[..5]), ws[5]), ws[6]), ws[7]), ws[8])
  {
    ApplyMore(st, ws[..5], ws[5]);
    assert ws[..6] == ws[..5] + [ws[5]];
    ApplyMore(st, ws[..6], ws[6]);
    assert ws[..7] == ws[..6] + [ws[6]];
    ApplyMore(st, ws[..7], ws[7]);
    assert ws[..8] == ws[..7] + [ws[7]];
    ApplyMore(st, ws[..8], ws[8]);
    assert ws == ws[..8] + [ws[8]];
  }

  /** The first five writes of a download of either release. */
  lemma Refilled(st: Store, ws: seq<Write>, byte: Byte, lease: Option<Lease>, progress: Progress)
    requires |ws| >= 5 && ws[..5] == [WriteLease(lease), DeleteCache(R), OpenCache(R), WriteProgress(progress), PutResource(R, INDEX, [byte])]
    requires st.caches.Keys <= {R}
    ensures ApplyAll(st, ws[..5]) == st.(lease := lease, progress := Some(progress), caches := map[R := map[INDEX := [byte]]])
  {
    ApplyFive(st, ws);
    assert ws[0] == ws[..5][0] && ws[1] == ws[..5][1] && ws[2] == ws[..5][2] && ws[3] == ws[..5][3] && ws[4] == ws[..5][4];
    assert st.caches - {R} == map[];
  }

  lemma FirstDownload() returns (st: Store)
    ensures st == After(PLATFORM, EMPTY, STRAY[0])
    ensures st.active.None? && st.lease.None? && st.candidate == Some(NewCandidate(Release('a'), 1))
    ensures st.manifests == map[R := Release('a')] && st.caches == map[R := map[INDEX := [1]]]
  {
    var lease := Download('a', 1, EMPTY, 0);
    var ws := DownloadWrites(PLATFORM, EMPTY, Source('a', 1), "owner", 0);
    Refilled(EMPTY, ws, 1, Some(lease), StateOf(Release('a'), 1, Status.Downloading, 0, 0));
    ApplyNine(EMPTY, ws);
    st := ApplyAll(EMPTY, ws);
  }

  lemma SecondDownload(st: Store) returns (st': Store)
    requires st.active.None? && st.lease.None? && st.caches == map[R := map[INDEX := [1]]]
    ensures st' == After(PLATFORM, st, STRAY[1])
    ensures st'.active.None? && st'.candidate == st.candidate && st'.manifests == st.manifests && st'.caches == map[R := map[INDEX := [2]]]
  {
    var lease := Download('b', 2, st, 1);
    var ws := DownloadWrites(PLATFORM, st, Source('b', 2), "owner", 1);
    Refilled(st, ws, 2, Some(lease), StateOf(Release('b'), 1, Status.Downloading, 0, 1));
    st' := ApplyAll(st, ws[..5]);
  }

  /** The candidate once the page has asked for validation, and once a navigation has opened a client on it. */
  const VALIDATING: Candidate :=
    NewCandidate(Release('a'), 1).(nonce := Some("nonce"), validationExpiresAt := Some(15_002), validationSourceClientId := Some("page"))
  const ENTERED: Candidate := VALIDATING.(clientId := Some("client"), validationSourceClientId := None)

  /** The cache holds the stray file. */
  predicate Strayed(st: Store, c: Candidate) {
    st.active.None? && st.candidate == Some(c) && st.manifests == map[R := Release('a')] && st.caches == map[R := map[INDEX := [2]]]
  }

  lemma Validated(st: Store)
    requires Strayed(st, NewCandidate(Release('a'), 1))
    ensures Strayed(After(PLATFORM, st, STRAY[2]), VALIDATING)
  {
    var ws := ValidateWrites(st, PAGE, 2);
    ApplyOne(st, ws[0]);
    assert ws == [ws[0]];
  }

  lemma Navigated(st: Store)
    requires Strayed(st, VALIDATING)
    ensures Strayed(After(PLATFORM, st, STRAY[3]), ENTERED)
  {
    var ws := FetchWrites(st, STRAY[3].event.request, 3);
    ApplyTwo(st, ws[0], ws[1]);
    assert ws == [ws[0], ws[1]];
  }

  lemma Confirmed(st: Store) returns (st': Store)
    requires Strayed(st, ENTERED)
    ensures st' == After(PLATFORM, st, STRAY[4])
    ensures st'.active == Some(Pointer(1, R)) && st'.manifests == st.manifests && st'.caches == st.caches
  {
    ReleaseAccepted('a');
    var ws := PromoteWrites(PLATFORM, st, CLIENT, META, 4);
    assert |CacheAt(st, R)| == 1;
    ApplyTwo(st, ws[0], ws[1]);
    assert ws == [ws[0], ws[1]];
    st' := Apply(Apply(st, ws[0]), ws[1]);
  }

  lemma Unlisted(cache: Cache)
    requires cache == map[INDEX := [2]]
    ensures !AllGenuine(PLATFORM, cache, Release('a').resources)
  {
    assert Hex('a')[0] != Hex('b')[0];
    assert !Listed(PLATFORM, Release('a').resources, INDEX, cache[INDEX]);
  }

  lemma FirstInv(st: Store)
    requires st.active.None? && st.candidate == Some(NewCandidate(Release('a'), 1))
    requires st.manifests == map[R := Release('a')] && st.caches == map[R := map[INDEX := [1]]]
    ensures Inv(PLATFORM, st)
  {
    ReleaseAccepted('a');
    assert Genuine(PLATFORM, Release('a').resources[0], INDEX, [1]);
    assert Listed(PLATFORM, Release('a').resources, INDEX, [1]);
  }

  lemma SecondStrays(s1: Store, s2: Store)
    requires Inv(PLATFORM, s1) && s1.candidate == Some(NewCandidate(Release('a'), 1)) && s1.manifests == map[R := Release('a')]
    requires s2 == After(PLATFORM, s1, STRAY[1])
    requires s2.candidate == s1.candidate && s2.manifests == s1.manifests && s2.caches == map[R := map[INDEX := [2]]]
    ensures Strays(PLATFORM, s1, STRAY[1])
  {
    Unlisted(s2.caches[R]);
    assert !CandidateOk(PLATFORM, s2);
    StepKeepsIff(PLATFORM, s1, STRAY[1]);
  }

  lemma ActiveBroken(st: Store)
    requires st.active == Some(Pointer(1, R)) && st.manifests == map[R := Release('a')] && st.caches == map[R := map[INDEX := [2]]]
    ensures !ActiveOk(PLATFORM, st)
  {
    Unlisted(st.caches[R]);
  }

  /** The stray file ends up in the active release: its digest is not the one the active manifest names. */
  lemma StrayActivated()
    ensures StraysAt(PLATFORM, STRAY, 1)
    ensures
      var st := Run(PLATFORM, STRAY);
      st.active == Some(Pointer(1, R)) && st.manifests == map[R := Release('a')] && st.caches == map[R := map[INDEX := [2]]]
    ensures !ActiveOk(PLATFORM, Run(PLATFORM, STRAY))
  {
    var s1 := FirstDownload();
    var s2 := SecondDownload(s1);
    Validated(s2);
    var s3 := After(PLATFORM, s2, STRAY[2]);
    Navigated(s3);
    var s5 := Confirmed(After(PLATFORM, s3, STRAY[3]));
    RunOfFive(s1, s2, s5);
    FirstInv(s1);
    SecondStrays(s1, s2);
    ActiveBroken(s5);
  }

  lemma RunOfFive(s1: Store, s2: Store, s5: Store)
    requires s1 == After(PLATFORM, EMPTY, STRAY[0]) && s2 == After(PLATFORM, s1, STRAY[1])
    requires s5 == After(PLATFORM, After(PLATFORM, After(PLATFORM, s2, STRAY[2]), STRAY[3]), STRAY[4])
    ensures Run(PLATFORM, STRAY[..1]) == s1 && Run(PLATFORM, STRAY) == s5
  {
    assert STRAY[..0] == [] && Run(PLATFORM, STRAY[..0]) == EMPTY;
    assert STRAY[..1][..0] == STRAY[..0] && STRAY[..2][..1] == STRAY[..1] && STRAY[..3][..2] == STRAY[..2] && STRAY[..4][..3] == STRAY[..3];
    assert Run(PLATFORM, STRAY[..2]) == s2;
    assert Run(PLATFORM, STRAY[..3]) == After(PLATFORM, s2, STRAY[2]);
    assert Run(PLATFORM, STRAY[..4]) == After(PLATFORM, After(PLATFORM, s2, STRAY[2]), STRAY[3]);
  }
}
