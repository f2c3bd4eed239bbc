/** The handlers of the service worker, each making its durable writes in order. */
module ReleaseWorkers {
  import opened Prelude
  import opened JsText
  import opened ReleaseManifests
  import opened ReleaseSpec

  class ReleaseWorker {
    const platform: Platform
    const owner: string
    var state: Store
    /** The durable writes made so far, in order. */
    ghost var trace: seq<Write>

    constructor (platform: Platform, owner: string)
      ensures this.platform == platform && this.owner == owner && state == EMPTY && trace == []
    {
      this.platform, this.owner, state, trace := platform, owner, EMPTY, [];
    }

    method Commit(w: Write)
      modifies this
      ensures state == Apply(old(state), w) && trace == old(trace) + [w]
    {
      state, trace := Apply(state, w), trace + [w];
    }

    /** START_UPDATE: `downloadCandidate`. */
    method DownloadCandidate(feed: Feed, now: int)
      modifies this
      ensures trace == old(trace) + DownloadWrites(platform, old(state), feed, owner, now)
      ensures state == ApplyAll(old(state), DownloadWrites(platform, old(state), feed, owner, now))
    {
      if state.lease.Some? && state.lease.value.expiresAt > now {
        return;
      }
      var lease := NewLease(state, owner, now);
      LeasedDownload(platform, state, feed, owner, now);
      Commit(WriteLease(Some(lease)));
      Update(feed, lease, now);
      Commit(WriteLease(None));
    }

    method Update(feed: Feed, lease: Lease, now: int)
      modifies this
      ensures trace == old(trace) + UpdateWrites(platform, old(state), feed, lease, now)
      ensures state == ApplyAll(old(state), UpdateWrites(platform, old(state), feed, lease, now))
    {
      ApplyOne(state, ClearCandidate(None, None));
      if feed.manifest.None? {
        Commit(ClearCandidate(None, None));
        return;
      }
      var validated := ValidateManifest(platform, feed.manifest.value);
      if validated.Err? {
        Commit(ClearCandidate(None, None));
        return;
      }
      var m := validated.value;
      if state.active.Some? && state.active.value.releaseId == m.releaseId {
        return;
      }
      if ApiError(platform, m, feed.meta).Some? {
        ApplyOne(state, Failure(m, lease, now));
        Commit(Failure(m, lease, now));
        return;
      }
      FillCandidate(m, feed, lease, now);
    }

    method FillCandidate(m: Manifest, feed: Feed, lease: Lease, now: int)
      requires Acceptable(platform, m)
      modifies this
      ensures trace == old(trace) + CandidateWrites(platform, m, feed, lease, now)
      ensures state == ApplyAll(old(state), CandidateWrites(platform, m, feed, lease, now))
    {
      ghost var before := state;
      var failed, downloaded, filling := Fill(m, feed, lease, now);
      ghost var ending := EndFilling(m, lease, failed, downloaded, now);
      ApplyConcat(before, filling, ending);
    }

    method Fill(m: Manifest, feed: Feed, lease: Lease, now: int) returns (failed: bool, downloaded: int, ghost made: seq<Write>)
      requires Acceptable(platform, m)
      modifies this
      ensures made == [DeleteCache(m.releaseId), OpenCache(m.releaseId), WriteProgress(StateOf(m, lease.generation, Downloading, 0, now))]
                      + ResourceWrites(platform, m, feed, lease, now, 0, 0).0
      ensures trace == old(trace) + made && state == ApplyAll(old(state), made)
      ensures failed == ResourceWrites(platform, m, feed, lease, now, 0, 0).1 && downloaded == Received(platform, m, feed, 0, 0)
    {
      ghost var before := state;
      var start := StateOf(m, lease.generation, Downloading, 0, now);
      StartFilling(m, start);
      ghost var opening := [DeleteCache(m.releaseId), OpenCache(m.releaseId), WriteProgress(start)];
      failed, downloaded := FetchResources(m, feed, lease, now);
      ghost var fetched := ResourceWrites(platform, m, feed, lease, now, 0, 0).0;
      ApplyConcat(before, opening, fetched);
      made := opening + fetched;
    }

    method EndFilling(m: Manifest, lease: Lease, failed: bool, downloaded: int, now: int) returns (ghost made: seq<Write>)
      modifies this
      ensures made == if failed then [DeleteCache(m.releaseId), Failure(m, lease, now)]
                      else [WriteReady(m, NewCandidate(m, lease.generation), StateOf(m, lease.generation, Ready, downloaded, now))]
      ensures trace == old(trace) + made && state == ApplyAll(old(state), made)
    {
      if failed {
        ApplyTwo(state, DeleteCache(m.releaseId), Failure(m, lease, now));
        Commit(DeleteCache(m.releaseId));
        Commit(Failure(m, lease, now));
        made := [DeleteCache(m.releaseId), Failure(m, lease, now)];
      } else {
        var ready := WriteReady(m, NewCandidate(m, lease.generation), StateOf(m, lease.generation, Ready, downloaded, now));
        ApplyOne(state, ready);
        Commit(ready);
        made := [ready];
      }
    }

    method StartFilling(m: Manifest, progress: Progress)
      modifies this
      ensures trace == old(trace) + [DeleteCache(m.releaseId), OpenCache(m.releaseId), WriteProgress(progress)]
      ensures state == ApplyAll(old(state), [DeleteCache(m.releaseId), OpenCache(m.releaseId), WriteProgress(progress)])
    {
      ApplyThree(state, DeleteCache(m.releaseId), OpenCache(m.releaseId), WriteProgress(progress));
      Commit(DeleteCache(m.releaseId));
      Commit(OpenCache(m.releaseId));
      Commit(WriteProgress(progress));
    }

    method FetchResources(m: Manifest, feed: Feed, lease: Lease, now: int) returns (failed: bool, downloaded: int)
      requires ResourcesAllowed(platform, m.resources)
      modifies this
      ensures trace == old(trace) + ResourceWrites(platform, m, feed, lease, now, 0, 0).0
      ensures state == ApplyAll(old(state), ResourceWrites(platform, m, feed, lease, now, 0, 0).0)
      ensures failed == ResourceWrites(platform, m, feed, lease, now, 0, 0).1 && downloaded == Received(platform, m, feed, 0, 0)
    {
      ghost var all := ResourceWrites(platform, m, feed, lease, now, 0, 0);
      ghost var rest := all;
      downloaded := 0;
      for i := 0 to |m.resources|
        invariant rest == ResourceWrites(platform, m, feed, lease, now, i, downloaded) && rest.1 == all.1
        invariant Received(platform, m, feed, i, downloaded) == Received(platform, m, feed, 0, 0)
        invariant trace + rest.0 == old(trace) + all.0 && ApplyAll(state, rest.0) == ApplyAll(old(state), all.0)
      {
        var r := m.resources[i];
        assert ResourceAllowed(platform, r);
        ResourceSplits(platform, m, feed, lease, now, i, downloaded);
        var body := FetchResource(feed, i, r);
        if body.Err? {
          failed := true;
          return;
        }
        downloaded := downloaded + |body.value|;
        ghost var next := ResourceWrites(platform, m, feed, lease, now, i + 1, downloaded);
        ghost var filling, written := state, trace;
        StoreResource(m, i, body.value, lease, downloaded, now);
        rest := NextResource(filling, written, OneWrites(platform, m, lease, now, i, body.value, downloaded), rest, next);
      }
      failed := false;
    }

    lemma NextResource(st: Store, written: seq<Write>, first: seq<Write>, rest: (seq<Write>, bool), next: (seq<Write>, bool)) returns (left: (seq<Write>, bool))
      requires rest.0 == first + next.0 && rest.1 == next.1
      ensures left == next && ApplyAll(ApplyAll(st, first), left.0) == ApplyAll(st, rest.0)
      ensures written + first + left.0 == written + rest.0
    {
      ApplyConcat(st, first, next.0);
      left := next;
    }

    method StoreResource(m: Manifest, i: nat, body: Bytes, lease: Lease, downloaded: int, now: int)
      requires i < |m.resources| && platform.path(m.resources[i].url).Some?
      modifies this
      ensures trace == old(trace) + OneWrites(platform, m, lease, now, i, body, downloaded)
      ensures state == ApplyAll(old(state), OneWrites(platform, m, lease, now, i, body, downloaded))
    {
      var put := PutResource(m.releaseId, platform.path(m.resources[i].url).value, body);
      var progress := StateOf(m, lease.generation, Downloading, downloaded, now);
      ApplyThree(state, put, WriteLease(Some(lease)), WriteProgress(progress));
      Commit(put);
      Commit(WriteLease(Some(lease)));
      Commit(WriteProgress(progress));
    }

    method FetchResource(feed: Feed, i: nat, r: Resource) returns (body: Result<Bytes>)
      ensures body == Fetched(platform, feed, i, r)
    {
      if i >= |feed.responses| || feed.responses[i].Missing? {
        return Err("release_resource_unavailable");
      }
      if feed.responses[i].NoBody? {
        return Err("release_resource_body_missing");
      }
      body := ReadResponseBody(feed.responses[i].stream, r.bytes);
      if body.Ok? && platform.sha256(body.value) != r.sha256 {
        return Err("release_resource_digest_mismatch");
      }
    }

    /** `failCandidate`. */
    method DropCandidate(now: int)
      modifies this
      ensures trace == old(trace) + FailWrites(old(state), now) && state == ApplyAll(old(state), FailWrites(old(state), now))
    {
      if state.candidate.None? {
        return;
      }
      var c := state.candidate.value;
      ghost var before := state;
      Commit(DeleteCache(c.releaseId));
      var failed := if c.releaseId in state.manifests then Some(StateOf(state.manifests[c.releaseId], c.generation, Failed, 0, now)) else None;
      Commit(ClearCandidate(Some(c.releaseId), failed));
      ApplyTwo(before, DeleteCache(c.releaseId), ClearCandidate(Some(c.releaseId), failed));
    }

    /** VALIDATE_CANDIDATE. */
    method ValidateCandidate(claim: Claim, now: int)
      modifies this
      ensures trace == old(trace) + ValidateWrites(old(state), claim, now)
      ensures state == ApplyAll(old(state), ValidateWrites(old(state), claim, now))
    {
      if state.candidate.None? || !IsCandidate(state.candidate.value, claim) || HeldByAnother(state.candidate.value, claim.source, now) {
        return;
      }
      var c := state.candidate.value;
      if c.releaseId !in state.manifests {
        DropCandidate(now);
        return;
      }
      var m := state.manifests[c.releaseId];
      var validating := c.(nonce := Some(claim.nonce), validationExpiresAt := Some(now + VALIDATION_MILLISECONDS), validationSourceClientId := Some(claim.source));
      var w := WriteCandidate(validating, Some(StateOf(m, c.generation, Validating, m.totalBytes, now)));
      ApplyOne(state, w);
      Commit(w);
    }

    /** FAIL_CANDIDATE. */
    method ReportFailure(claim: Claim, now: int)
      modifies this
      ensures trace == old(trace) + ReportWrites(old(state), claim, now)
      ensures state == ApplyAll(old(state), ReportWrites(old(state), claim, now))
    {
      if state.candidate.Some? && FromCandidate(state.candidate.value, claim) {
        DropCandidate(now);
      }
    }

    /** STARTUP_CONFIRMED: `promoteCandidate`, and `failCandidate` where it throws. */
    method PromoteCandidate(claim: Claim, meta: Meta, now: int)
      modifies this
      ensures trace == old(trace) + PromoteWrites(platform, old(state), claim, meta, now)
      ensures state == ApplyAll(old(state), PromoteWrites(platform, old(state), claim, meta, now))
    {
      if state.candidate.None? || !FromCandidate(state.candidate.value, claim) {
        return;
      }
      var c := state.candidate.value;
      if !Within(c, now) {
        DropCandidate(now);
        return;
      }
      if c.releaseId !in state.manifests {
        DropCandidate(now);
        return;
      }
      var m := state.manifests[c.releaseId];
      if ApiError(platform, m, meta).Some? {
        DropCandidate(now);
        return;
      }
      ghost var before := state;
      Commit(OpenCache(c.releaseId));
      ApplyOne(before, OpenCache(c.releaseId));
      if |state.caches[c.releaseId]| != c.expectedResourceCount {
        DropCandidate(now);
        ApplyConcat(before, [OpenCache(c.releaseId)], FailWrites(before, now));
        return;
      }
      var activate := WriteActive(Pointer(c.generation, c.releaseId), StateOf(m, c.generation, Active, m.totalBytes, now));
      ApplyOne(state, activate);
      Commit(activate);
      ApplyConcat(before, [OpenCache(c.releaseId)], [activate]);
    }
  }

  /** A download between taking the lease and giving it back. */
  lemma LeasedDownload(p: Platform, st: Store, feed: Feed, owner: string, now: int)
    requires !(st.lease.Some? && st.lease.value.expiresAt > now)
    ensures
      var lease := NewLease(st, owner, now);
      var leased := Apply(st, WriteLease(Some(lease)));
      var update := UpdateWrites(p, leased, feed, lease, now);
      DownloadWrites(p, st, feed, owner, now) == [WriteLease(Some(lease))] + update + [WriteLease(None)]
      && ApplyAll(st, DownloadWrites(p, st, feed, owner, now)) == Apply(ApplyAll(leased, update), WriteLease(None))
  {
    var lease := NewLease(st, owner, now);
    var update := UpdateWrites(p, Apply(st, WriteLease(Some(lease))), feed, lease, now);
    UpdateIgnoresLease(p, st, Some(lease), feed, lease, now);
    ApplyAround(st, WriteLease(Some(lease)), update, WriteLease(None));
  }
}
