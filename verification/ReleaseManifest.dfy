/** What the service worker accepts as a release: its manifest, its resources' bytes and its compatibility. */
module ReleaseManifests {
  import opened Prelude
  import opened JsText

  datatype ReleaseId = ReleaseId(hex: string)

  /** The path of a same-origin resource below the worker's scope. */
  datatype Path = Path(text: string)

  datatype Resource = Resource(url: string, bytes: int, sha256: string)

  datatype Manifest = Manifest(
    releaseId: ReleaseId,
    version: string,
    builtAt: Option<int>,
    apiMinimum: Text,
    apiMaximum: Text,
    workerMinimum: int,
    workerMaximum: int,
    resources: seq<Resource>,
    totalBytes: int)

  datatype Version = Version(major: nat, minor: nat, patch: nat)

  /** What the browser computes: URL parsing, SHA-256 in hexadecimal, and the version pattern. */
  datatype Platform = Platform(path: string -> Option<Path>, sha256: Bytes -> string, version: string -> Option<Version>)

  const PROTOCOL := 1
  const MAX_RESOURCES := 256
  const MAX_RESOURCE_BYTES := 8 * 1024 * 1024
  const MAX_RELEASE_BYTES := 32 * 1024 * 1024
  const V1: Text := [118, 49]

  predicate IsDigest(s: string) {
    |s| == 64 && forall i :: 0 <= i < 64 ==> '0' <= s[i] <= '9' || 'a' <= s[i] <= 'f'
  }

  // ---- the manifest ----

  predicate HeaderAllowed(m: Manifest) {
    IsDigest(m.releaseId.hex) && m.version != "" && m.builtAt.Some?
    && 0 < m.totalBytes <= MAX_RELEASE_BYTES && 0 < |m.resources| <= MAX_RESOURCES
    && m.apiMinimum == V1 && m.apiMaximum == V1
    && m.workerMinimum <= PROTOCOL <= m.workerMaximum
  }

  predicate ResourceAllowed(p: Platform, r: Resource) {
    p.path(r.url).Some? && 0 < r.bytes <= MAX_RESOURCE_BYTES && IsDigest(r.sha256)
  }

  predicate ResourcesAllowed(p: Platform, resources: seq<Resource>) {
    (forall i :: 0 <= i < |resources| ==> ResourceAllowed(p, resources[i]))
    && forall i, j :: 0 <= i < j < |resources| ==> p.path(resources[i].url) != p.path(resources[j].url)
  }

  function Total(resources: seq<Resource>): int {
    if resources == [] then 0 else Total(resources[..|resources| - 1]) + resources[|resources| - 1].bytes
  }

  predicate Acceptable(p: Platform, m: Manifest) {
    HeaderAllowed(m) && ResourcesAllowed(p, m.resources) && Total(m.resources) == m.totalBytes
  }

  /** `None` stands for a value of another shape. */
  function Validate(p: Platform, value: Option<Manifest>): Result<Manifest> {
    if value.None? || !HeaderAllowed(value.value) then Err("release_manifest_invalid")
    else if !ResourcesAllowed(p, value.value.resources) then Err("release_resource_invalid")
    else if Total(value.value.resources) != value.value.totalBytes then Err("release_total_size_mismatch")
    else Ok(value.value)
  }

  method ValidateManifest(p: Platform, value: Option<Manifest>) returns (validated: Result<Manifest>)
    ensures validated == Validate(p, value)
    ensures validated.Ok? <==> value.Some? && Acceptable(p, value.value)
  {
    if value.None? || !HeaderAllowed(value.value) {
      return Err("release_manifest_invalid");
    }
    var m := value.value;
    var paths: set<Path> := {};
    var total := 0;
    for i := 0 to |m.resources|
      invariant ResourcesAllowed(p, m.resources[..i])
      invariant forall k :: 0 <= k < i ==> p.path(m.resources[k].url).value in paths
      invariant forall path :: path in paths ==> exists k :: 0 <= k < i && p.path(m.resources[k].url) == Some(path)
      invariant total == Total(m.resources[..i])
    {
      var r := m.resources[i];
      assert m.resources[..i + 1][..i] == m.resources[..i];
      if !ResourceAllowed(p, r) || p.path(r.url).value in paths {
        assert r == m.resources[i];
        return Err("release_resource_invalid");
      }
      paths := paths + {p.path(r.url).value};
      total := total + r.bytes;
    }
    assert m.resources[..|m.resources|] == m.resources;
    return if total != m.totalBytes then Err("release_total_size_mismatch") else Ok(m);
  }

  // ---- compatibility ----

  predicate Older(a: Version, b: Version) {
    a.major < b.major || (a.major == b.major && (a.minor < b.minor || (a.minor == b.minor && a.patch < b.patch)))
  }

  datatype Meta = Unavailable | Malformed | Meta(apiVersion: Text, minimumWebRelease: string, workerProtocolVersion: int)

  function ApiError(p: Platform, m: Manifest, meta: Meta): Option<string> {
    match meta
    case Unavailable => Some("api_version_unavailable")
    case Malformed => Some("api_version_invalid")
    case Meta(apiVersion, minimumWebRelease, protocol) =>
      if Less(apiVersion, m.apiMinimum) || Less(m.apiMaximum, apiVersion) || protocol != PROTOCOL then Some("release_incompatible")
      else
        var version, minimum := p.version(m.version), p.version(minimumWebRelease);
        if version.None? || minimum.None? then Some("release_version_invalid")
        else if Older(version.value, minimum.value) then Some("release_incompatible")
        else None
  }

  // ---- reading a response body ----

  /** The chunks a reader yields; `abortAt` is how many of them were read when the signal fires, `broken` a final read that fails. */
  datatype Stream = Stream(chunks: seq<Bytes>, abortAt: Option<nat>, broken: bool)

  function Joined(chunks: seq<Bytes>): Bytes {
    if chunks == [] then [] else Joined(chunks[..|chunks| - 1]) + chunks[|chunks| - 1]
  }

  /** The outcome from chunk i on. */
  function Read(s: Stream, expected: int, i: nat): Result<Bytes>
    requires i <= |s.chunks|
    decreases |s.chunks| - i
  {
    if s.abortAt == Some(i) then Err("update_cancelled")
    else if i == |s.chunks| then
      if s.broken then Err("update_failed")
      else if |Joined(s.chunks)| != expected then Err("release_resource_size_mismatch")
      else Ok(Joined(s.chunks))
    else if |Joined(s.chunks[..i + 1])| > expected then Err("release_resource_size_mismatch")
    else Read(s, expected, i + 1)
  }

  lemma {:induction false} JoinedGrows(chunks: seq<Bytes>, i: nat)
    requires i <= |chunks|
    ensures |Joined(chunks[..i])| <= |Joined(chunks)|
  {
    if i < |chunks| {
      assert chunks[..|chunks| - 1][..i] == chunks[..i];
      JoinedGrows(chunks[..|chunks| - 1], i);
    } else {
      assert chunks[..i] == chunks;
    }
  }

  /** A body is accepted exactly when the stream ends by itself, unaborted, with the expected number of bytes; it is then those bytes. */
  lemma {:induction false} ReadIff(s: Stream, expected: int, i: nat)
    requires i <= |s.chunks| && (s.abortAt.Some? ==> s.abortAt.value >= i)
    ensures Read(s, expected, i).Ok?
       <==> |Joined(s.chunks)| == expected && !s.broken && (s.abortAt.None? || s.abortAt.value > |s.chunks|)
    ensures Read(s, expected, i).Ok? ==> Read(s, expected, i).value == Joined(s.chunks)
    decreases |s.chunks| - i
  {
    if s.abortAt != Some(i) && i < |s.chunks| {
      JoinedGrows(s.chunks, i + 1);
      if |Joined(s.chunks[..i + 1])| <= expected {
        ReadIff(s, expected, i + 1);
      }
    }
  }

  /** `Uint8Array.prototype.set`. */
  method SetBytes(body: array<Byte>, chunk: Bytes, offset: nat)
    requires offset + |chunk| <= body.Length
    modifies body
    ensures body[..] == old(body[..offset]) + chunk + old(body[offset + |chunk|..])
  {
    for i := 0 to |chunk|
      invariant body[..offset] == old(body[..offset]) && body[offset..offset + i] == chunk[..i]
      invariant body[offset + i..] == old(body[offset + i..])
    {
      body[offset + i] := chunk[i];
    }
    assert body[..] == body[..offset] + body[offset..offset + |chunk|] + body[offset + |chunk|..];
  }

  method ReadResponseBody(s: Stream, expected: int) returns (read: Result<Bytes>)
    ensures read == Read(s, expected, 0)
  {
    var chunks: seq<Bytes> := [];
    var received := 0;
    while |chunks| < |s.chunks| || s.abortAt == Some(|chunks|)
      invariant |chunks| <= |s.chunks| && chunks == s.chunks[..|chunks|]
      invariant received == |Joined(chunks)| && Read(s, expected, 0) == Read(s, expected, |chunks|)
      decreases |s.chunks| - |chunks|
    {
      if s.abortAt == Some(|chunks|) {
        return Err("update_cancelled");
      }
      var chunk := s.chunks[|chunks|];
      received := received + |chunk|;
      assert s.chunks[..|chunks| + 1] == chunks + [chunk];
      assert (chunks + [chunk])[..|chunks|] == chunks;
      if received > expected {
        return Err("release_resource_size_mismatch");
      }
      chunks := chunks + [chunk];
    }
    assert chunks == s.chunks;
    if s.broken {
      return Err("update_failed");
    }
    if received != expected {
      return Err("release_resource_size_mismatch");
    }
    var body := new Byte[received](_ => 0);
    var offset := 0;
    for i := 0 to |chunks|
      invariant offset == |Joined(chunks[..i])| <= received && body[..offset] == Joined(chunks[..i])
    {
      JoinedGrows(chunks, i + 1);
      assert chunks[..i + 1][..i] == chunks[..i];
      SetBytes(body, chunks[i], offset);
      offset := offset + |chunks[i]|;
    }
    assert chunks[..|chunks|] == chunks && body[..] == body[..received];
    return Ok(body[..]);
  }
}
