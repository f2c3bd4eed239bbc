/** Browser sessions: the index kept in Redis, and the plain map of unexpired sessions that it stands for. */
module SessionSpec {
  import opened Prelude

  /** The digest of a session token. */
  datatype Digest = Digest(hex: string)

  /** An identifier of a user, a session or an authenticator. */
  datatype Identifier = Identifier(uuid: string)

  datatype AuthStrength = Passkey | PasswordTotp | PasswordRecovery

  datatype StoredSession = StoredSession(
    id: Identifier,
    userId: Identifier,
    authenticatorId: Option<Identifier>,
    authStrength: AuthStrength,
    createdAt: int,
    lastActiveAt: int,
    idleExpiresAt: int,
    absoluteExpiresAt: int,
    strongAuthenticatedAt: Option<int>)

  datatype Options = Options(absoluteTtl: int, activityWriteInterval: int, idleTtl: int)

  predicate Accepted(options: Options) {
    options.absoluteTtl > 0 && options.activityWriteInterval >= 0 && 0 < options.idleTtl <= options.absoluteTtl
  }

  const MAX_ACTIVE: nat := 200

  // ---- expiry ----

  predicate Unexpired(s: StoredSession, now: int) {
    now < s.idleExpiresAt && now < s.absoluteExpiresAt
  }

  function Earlier(a: int, b: int): int {
    if a < b then a else b
  }

  function RemainingTtlSeconds(s: StoredSession, now: int): (seconds: nat)
    ensures seconds == 0 <==> !Unexpired(s, now)
    ensures Unexpired(s, now) ==> 0 <= now + seconds * 1000 - Earlier(s.idleExpiresAt, s.absoluteExpiresAt) < 1000
  {
    var rounded := (Earlier(s.absoluteExpiresAt - now, s.idleExpiresAt - now) + 999) / 1000;
    if rounded < 0 then 0 else rounded
  }

  // ---- the plain map ----

  /** Digest of the token, and its session. */
  type Sessions = map<Digest, StoredSession>

  function At(sessions: Sessions, now: int): Sessions {
    map d | d in sessions && Unexpired(sessions[d], now) :: sessions[d]
  }

  function New(options: Options, now: int, id: Identifier, userId: Identifier, strength: AuthStrength, authenticatorId: Option<Identifier>): StoredSession {
    StoredSession(id, userId, authenticatorId, strength, now, now, now + options.idleTtl, now + options.absoluteTtl,
                  if strength.PasswordRecovery? then None else Some(now))
  }

  /** The session after a use: renewed when the last recorded use is far enough back. */
  function Used(options: Options, s: StoredSession, now: int): StoredSession {
    if now - s.lastActiveAt >= options.activityWriteInterval
    then s.(absoluteExpiresAt := now + options.absoluteTtl, idleExpiresAt := now + options.idleTtl, lastActiveAt := now)
    else s
  }

  predicate MayStepUp(live: Sessions, digest: Digest, userId: Identifier) {
    digest in live && live[digest].userId == userId && !live[digest].authStrength.PasswordRecovery?
  }

  /** Which of a user's sessions a call revokes. */
  datatype Choice = All | Id(id: Identifier) | NotId(keep: Identifier) | Authenticator(authenticatorId: Identifier)

  predicate Chosen(choice: Choice, s: StoredSession) {
    match choice
    case All => true
    case Id(id) => s.id == id
    case NotId(keep) => s.id != keep
    case Authenticator(a) => s.authenticatorId == Some(a)
  }

  function Picked(live: Sessions, userId: Identifier, choice: Choice): set<Digest> {
    set d | d in live && live[d].userId == userId && Chosen(choice, live[d])
  }

  // ---- Redis ----

  datatype Entry = Entry(session: StoredSession, expiresAt: int)

  /** A sorted set and the time at which Redis drops it. */
  datatype Index = Index(scores: map<Digest, int>, expiresAt: int)

  datatype Store = Store(entries: map<Digest, Entry>, users: map<Identifier, Index>, active: map<Digest, int>)

  const EMPTY: Store := Store(map[], map[], map[])

  predicate Present(st: Store, digest: Digest, now: int) {
    digest in st.entries && now < st.entries[digest].expiresAt
  }

  function UserScores(st: Store, userId: Identifier, now: int): map<Digest, int> {
    if userId in st.users && now < st.users[userId].expiresAt then st.users[userId].scores else map[]
  }

  function PurgeScores(scores: map<Digest, int>, now: int): map<Digest, int> {
    map d | d in scores && now < scores[d] :: scores[d]
  }

  /** The unexpired sessions the store holds. */
  function Live(st: Store, now: int): Sessions {
    map d | d in st.entries && Unexpired(st.entries[d].session, now) :: st.entries[d].session
  }

  // ---- the three-structure invariant ----

  /** Redis keeps the record until its session expires and less than a second longer. */
  ghost predicate EntryOk(e: Entry) {
    e.session.idleExpiresAt <= e.session.absoluteExpiresAt && 0 <= e.expiresAt - e.session.idleExpiresAt < 1000
  }

  ghost predicate EntriesOk(st: Store) {
    forall d :: d in st.entries ==> EntryOk(st.entries[d])
  }

  /** No two records share a session identifier. */
  ghost predicate IdsOk(st: Store) {
    forall d, e :: d in st.entries && e in st.entries && st.entries[d].session.id == st.entries[e].session.id ==> d == e
  }

  /** An unexpired session is in its user's set, which outlives it, and in the global set, at its idle expiry. */
  ghost predicate Indexed(st: Store, d: Digest)
    requires d in st.entries
  {
    var s := st.entries[d].session;
    s.userId in st.users && d in st.users[s.userId].scores
    && st.users[s.userId].scores[d] == s.idleExpiresAt && s.idleExpiresAt <= st.users[s.userId].expiresAt
    && d in st.active && st.active[d] == s.idleExpiresAt
  }

  /** Whatever a set says about a stored session is right. */
  ghost predicate UserSetsOk(st: Store) {
    forall u, d :: u in st.users && d in st.users[u].scores && d in st.entries ==>
      st.entries[d].session.userId == u && st.users[u].scores[d] == st.entries[d].session.idleExpiresAt
  }

  ghost predicate ActiveOk(st: Store, now: int) {
    |st.active| <= MAX_ACTIVE
    && forall d :: d in st.active && now < st.active[d] ==> d in st.entries && st.entries[d].session.idleExpiresAt == st.active[d]
  }

  ghost predicate Inv(st: Store, now: int) {
    EntriesOk(st) && IdsOk(st) && UserSetsOk(st) && ActiveOk(st, now)
    && forall d :: d in st.entries && now < st.entries[d].session.idleExpiresAt ==> Indexed(st, d)
  }

  /** The digests and identifiers ever handed out cover all the store mentions. */
  ghost predicate Covered(st: Store, digests: set<Digest>, ids: set<Identifier>) {
    (forall d :: d in st.entries ==> d in digests && st.entries[d].session.id in ids)
    && (forall d :: d in st.active ==> d in digests)
    && forall u, d :: u in st.users && d in st.users[u].scores ==> d in digests
  }

  ghost predicate Sound(st: Store, now: int, digests: set<Digest>, ids: set<Identifier>) {
    Inv(st, now) && Covered(st, digests, ids)
  }

  /** Time alone breaks nothing. */
  lemma LaterInv(st: Store, now: int, later: int)
    requires Inv(st, now) && now <= later
    ensures Inv(st, later)
  {
  }

  lemma StaysSound(st: Store, now: int, digests: set<Digest>, ids: set<Identifier>)
    requires Sound(st, now, digests, ids)
    ensures forall later :: now <= later ==> Sound(st, later, digests, ids)
  {
    forall later | now <= later ensures Sound(st, later, digests, ids) {
      LaterInv(st, now, later);
    }
  }

  /** Time alone only expires sessions. */
  lemma LaterLive(st: Store, now: int, later: int)
    requires now <= later
    ensures Live(st, later) == At(Live(st, now), later)
  {
  }

  /** The global set, once purged, is exactly the unexpired sessions; at most `MAX_ACTIVE` of them. */
  lemma PurgedIsLive(st: Store, now: int)
    requires Inv(st, now)
    ensures PurgeScores(st.active, now).Keys == Live(st, now).Keys
    ensures |Live(st, now)| == |PurgeScores(st.active, now)| && |Live(st, now)| <= MAX_ACTIVE
  {
    var live, purged := Live(st, now), PurgeScores(st.active, now);
    forall d ensures d in purged <==> d in live {
      if d in live { assert Indexed(st, d); }
    }
    assert purged.Keys == live.Keys;
    assert |purged| == |purged.Keys| && |live| == |live.Keys|;
    SubsetSize(purged.Keys, st.active.Keys);
    assert |st.active| == |st.active.Keys|;
  }

  // ---- writing one session ----

  /** The create script once it has room: `latest` is the highest score of the user's set. */
  function Put(st: Store, now: int, digest: Digest, s: StoredSession, latest: int): Store {
    Store(st.entries[digest := Entry(s, now + RemainingTtlSeconds(s, now) * 1000)],
          st.users[s.userId := Index(UserScores(st, s.userId, now)[digest := s.idleExpiresAt], latest)],
          PurgeScores(st.active, now)[digest := s.idleExpiresAt])
  }

  ghost predicate Latest(scores: map<Digest, int>, latest: int) {
    (forall d :: d in scores ==> scores[d] <= latest) && exists d :: d in scores && scores[d] == latest
  }

  predicate HasRoom(st: Store, now: int, digest: Digest) {
    digest in PurgeScores(st.active, now) || |PurgeScores(st.active, now)| < MAX_ACTIVE
  }

  /** The session may be written under this digest: it is that digest's own, or the digest is unused. */
  ghost predicate MayPut(st: Store, now: int, digest: Digest, s: StoredSession, latest: int) {
    HasRoom(st, now, digest) && Unexpired(s, now) && s.idleExpiresAt <= s.absoluteExpiresAt
    && Latest(UserScores(st, s.userId, now)[digest := s.idleExpiresAt], latest)
    && (digest in st.entries ==> st.entries[digest].session.userId == s.userId)
    && (digest !in st.entries ==> forall u :: u in st.users ==> digest !in st.users[u].scores)
    && forall d :: d in st.entries && st.entries[d].session.id == s.id ==> d == digest
  }

  lemma PutActive(st: Store, now: int, digest: Digest, s: StoredSession, latest: int)
    requires Inv(st, now) && MayPut(st, now, digest, s, latest)
    ensures ActiveOk(Put(st, now, digest, s, latest), now)
  {
    var active := Put(st, now, digest, s, latest).active;
    PurgedSize(st, now, digest, s.idleExpiresAt);
    forall d | d in active && now < active[d] && d != digest ensures d in st.entries && st.entries[d].session.idleExpiresAt == active[d] {
      assert d in st.active && st.active[d] == active[d];
    }
  }

  lemma PurgedSize(st: Store, now: int, digest: Digest, score: int)
    requires |st.active| <= MAX_ACTIVE && HasRoom(st, now, digest)
    ensures |PurgeScores(st.active, now)[digest := score]| <= MAX_ACTIVE
  {
    var purged := PurgeScores(st.active, now);
    var active := purged[digest := score];
    SubsetSize(purged.Keys, st.active.Keys);
    assert active.Keys == if digest in purged then purged.Keys else purged.Keys + {digest};
    assert |active| == |active.Keys| && |purged| == |purged.Keys| && |st.active| == |st.active.Keys|;
  }

  lemma PutUserSets(st: Store, now: int, digest: Digest, s: StoredSession, latest: int)
    requires Inv(st, now) && MayPut(st, now, digest, s, latest)
    ensures UserSetsOk(Put(st, now, digest, s, latest))
  {
    var st' := Put(st, now, digest, s, latest);
    forall u, d | u in st'.users && d in st'.users[u].scores && d in st'.entries
      ensures st'.entries[d].session.userId == u && st'.users[u].scores[d] == st'.entries[d].session.idleExpiresAt
    {
      if d != digest {
        assert u in st.users && d in st.users[u].scores && d in st.entries;
      }
    }
  }

  lemma PutIndexed(st: Store, now: int, digest: Digest, s: StoredSession, latest: int, d: Digest)
    requires Inv(st, now) && MayPut(st, now, digest, s, latest)
    requires d != digest && d in st.entries && now < st.entries[d].session.idleExpiresAt
    ensures Indexed(Put(st, now, digest, s, latest), d)
  {
    assert Indexed(st, d);
    var u := st.entries[d].session.userId;
    if u == s.userId {
      assert d in UserScores(st, u, now);
    }
  }

  lemma PutEntries(st: Store, now: int, digest: Digest, s: StoredSession, latest: int)
    requires Inv(st, now) && MayPut(st, now, digest, s, latest)
    ensures EntriesOk(Put(st, now, digest, s, latest)) && IdsOk(Put(st, now, digest, s, latest))
  {
    var st' := Put(st, now, digest, s, latest);
    assert EntryOk(st'.entries[digest]);
    forall d, e | d in st'.entries && e in st'.entries && st'.entries[d].session.id == st'.entries[e].session.id ensures d == e {
    }
  }

  lemma PutLive(st: Store, now: int, digest: Digest, s: StoredSession, latest: int)
    requires Unexpired(s, now)
    ensures Live(Put(st, now, digest, s, latest), now) == Live(st, now)[digest := s]
  {
  }

  lemma PutKeepsInv(st: Store, now: int, digest: Digest, s: StoredSession, latest: int)
    requires Inv(st, now) && MayPut(st, now, digest, s, latest)
    ensures Inv(Put(st, now, digest, s, latest), now)
    ensures Live(Put(st, now, digest, s, latest), now) == Live(st, now)[digest := s]
  {
    var st' := Put(st, now, digest, s, latest);
    PutEntries(st, now, digest, s, latest);
    PutLive(st, now, digest, s, latest);
    PutActive(st, now, digest, s, latest);
    PutUserSets(st, now, digest, s, latest);
    forall d | d in st'.entries && now < st'.entries[d].session.idleExpiresAt ensures Indexed(st', d) {
      if d != digest { PutIndexed(st, now, digest, s, latest, d); }
    }
  }

  lemma PurgeKeepsInv(st: Store, now: int)
    requires Inv(st, now)
    ensures Inv(st.(active := PurgeScores(st.active, now)), now)
  {
    var st' := st.(active := PurgeScores(st.active, now));
    SubsetSize(st'.active.Keys, st.active.Keys);
    forall d | d in st'.entries && now < st'.entries[d].session.idleExpiresAt ensures Indexed(st', d) {
      assert Indexed(st, d);
    }
  }

  lemma PurgeUserKeepsInv(st: Store, userId: Identifier, now: int)
    requires Inv(st, now)
    ensures Inv(PurgeUser(st, userId, now), now)
  {
    var st' := PurgeUser(st, userId, now);
    forall d | d in st'.entries && now < st'.entries[d].session.idleExpiresAt ensures Indexed(st', d) {
      assert Indexed(st, d);
    }
  }

  function PurgeUser(st: Store, userId: Identifier, now: int): Store {
    if userId in st.users
    then st.(users := st.users[userId := st.users[userId].(scores := PurgeScores(st.users[userId].scores, now))])
    else st
  }

  // ---- removing sessions ----

  /** The records of `digests` and their entries in the set of `userId` and in the global set are removed. */
  function Drop(st: Store, userId: Identifier, digests: set<Digest>): Store {
    Store(st.entries - digests,
          if userId in st.users then st.users[userId := st.users[userId].(scores := st.users[userId].scores - digests)] else st.users,
          st.active - digests)
  }

  lemma DropUserSets(st: Store, userId: Identifier, digests: set<Digest>)
    requires UserSetsOk(st)
    ensures UserSetsOk(Drop(st, userId, digests))
  {
    var st' := Drop(st, userId, digests);
    forall u, d | u in st'.users && d in st'.users[u].scores && d in st'.entries
      ensures st'.entries[d].session.userId == u && st'.users[u].scores[d] == st'.entries[d].session.idleExpiresAt
    {
      assert u in st.users && d in st.users[u].scores && d in st.entries;
    }
  }

  lemma DropActive(st: Store, userId: Identifier, digests: set<Digest>, now: int)
    requires Inv(st, now)
    ensures ActiveOk(Drop(st, userId, digests), now)
  {
    var st' := Drop(st, userId, digests);
    SubsetSize(st'.active.Keys, st.active.Keys);
    assert |st'.active| == |st'.active.Keys| && |st.active| == |st.active.Keys|;
    forall d | d in st'.active && now < st'.active[d] ensures d in st'.entries && st'.entries[d].session.idleExpiresAt == st'.active[d] {
      assert d in st.active && st.active[d] == st'.active[d];
    }
  }

  lemma DropEntries(st: Store, userId: Identifier, digests: set<Digest>, now: int)
    requires EntriesOk(st) && IdsOk(st)
    ensures EntriesOk(Drop(st, userId, digests)) && IdsOk(Drop(st, userId, digests))
    ensures Live(Drop(st, userId, digests), now) == Live(st, now) - digests
  {
    var st' := Drop(st, userId, digests);
    assert forall d :: d in st'.entries <==> d in st.entries && d !in digests;
    assert forall d :: d in st'.entries ==> st'.entries[d] == st.entries[d];
  }

  lemma DropKeepsInv(st: Store, userId: Identifier, digests: set<Digest>, now: int)
    requires Inv(st, now)
    ensures Inv(Drop(st, userId, digests), now)
    ensures Live(Drop(st, userId, digests), now) == Live(st, now) - digests
  {
    var st' := Drop(st, userId, digests);
    DropEntries(st, userId, digests, now);
    DropUserSets(st, userId, digests);
    DropActive(st, userId, digests, now);
    forall d | d in st'.entries && now < st'.entries[d].session.idleExpiresAt ensures Indexed(st', d) {
      assert Indexed(st, d);
    }
  }

  lemma DropDrop(st: Store, userId: Identifier, a: set<Digest>, b: set<Digest>)
    ensures Drop(Drop(st, userId, a), userId, b) == Drop(st, userId, a + b)
  {
    var l, r := Drop(Drop(st, userId, a), userId, b), Drop(st, userId, a + b);
    assert l.entries == r.entries && l.active == r.active;
    if userId in st.users {
      assert l.users[userId].scores == r.users[userId].scores;
    }
    assert l.users == r.users;
  }

  // ---- what a user's set says ----

  /** The user's stored sessions that a revoking script picks; a record may outlive its session by less than a second. */
  function Matching(st: Store, userId: Identifier, choice: Choice, now: int): set<Digest> {
    set d | d in UserScores(st, userId, now) && Present(st, d, now) && Chosen(choice, st.entries[d].session)
  }

  /** Members of the user's set without a record, which the scripts sweep out. */
  function Dangling(st: Store, userId: Identifier, now: int): set<Digest> {
    set d | d in UserScores(st, userId, now) && !Present(st, d, now)
  }

  lemma MemberIsUsers(st: Store, userId: Identifier, now: int, d: Digest)
    requires Inv(st, now)
    ensures d in Live(st, now) && Live(st, now)[d].userId == userId ==>
              d in UserScores(st, userId, now) && UserScores(st, userId, now)[d] == Live(st, now)[d].idleExpiresAt
    ensures d in UserScores(st, userId, now) && d in Live(st, now) ==> Live(st, now)[d].userId == userId
    ensures d in Live(st, now) ==> Present(st, d, now)
    ensures d in PurgeScores(UserScores(st, userId, now), now) && Present(st, d, now) ==> d in Live(st, now)
  {
    if d in Live(st, now) {
      assert Indexed(st, d);
      assert EntryOk(st.entries[d]);
    }
    if d in PurgeScores(UserScores(st, userId, now), now) && Present(st, d, now) {
      assert EntryOk(st.entries[d]);
    }
  }

  /** Removing what matches, with any of the dangling members, removes exactly the chosen unexpired sessions. */
  lemma DropMatching(st: Store, userId: Identifier, choice: Choice, now: int, dropped: set<Digest>)
    requires Inv(st, now)
    requires Matching(st, userId, choice, now) <= dropped <= Matching(st, userId, choice, now) + Dangling(st, userId, now)
    ensures Live(st, now) - dropped == Live(st, now) - Picked(Live(st, now), userId, choice)
    ensures Picked(Live(st, now), userId, choice) <= Matching(st, userId, choice, now)
  {
    var live := Live(st, now);
    forall d | d in live ensures d in dropped <==> d in Picked(live, userId, choice) {
      MemberIsUsers(st, userId, now, d);
    }
    forall d | d in Picked(live, userId, choice) ensures d in Matching(st, userId, choice, now) {
      MemberIsUsers(st, userId, now, d);
    }
  }

  /** The answer of `list`: each unexpired session of the user once. */
  ghost predicate Lists(listed: seq<StoredSession>, live: Sessions, userId: Identifier) {
    exists ds: seq<Digest> :: NoDup(ds) && Elements(ds) == Picked(live, userId, All) && ListedAs(listed, live, ds)
  }

  ghost predicate ListedAs(listed: seq<StoredSession>, live: Sessions, ds: seq<Digest>) {
    |listed| == |ds| && forall i :: 0 <= i < |ds| ==> ds[i] in live && listed[i] == live[ds[i]]
  }
}
