/** The Redis repository: each script is one atomic method over the database. */
module SessionRepositories {
  import opened Prelude
  import opened SessionSpec

  /** The members of a sorted set, in some order. */
  method Members(scores: map<Digest, int>) returns (members: seq<Digest>)
    ensures NoDup(members) && forall d :: d in members <==> d in scores
  {
    members := [];
    var rest := scores.Keys;
    while rest != {}
      invariant NoDup(members) && forall d :: d in scores <==> d in members || d in rest
      invariant forall d :: d in rest ==> d !in members
      decreases |rest|
    {
      var d :| d in rest;
      members, rest := members + [d], rest - {d};
    }
  }

  method LatestScore(scores: map<Digest, int>) returns (latest: int)
    requires scores.Keys != {}
    ensures Latest(scores, latest)
  {
    var members := Members(scores);
    var some :| some in scores;
    assert some in members;
    latest := scores[members[0]];
    for i := 1 to |members|
      invariant forall k :: 0 <= k < i ==> scores[members[k]] <= latest
      invariant exists d :: d in scores && scores[d] == latest
    {
      if scores[members[i]] > latest {
        latest := scores[members[i]];
      }
    }
  }

  class RedisSessionRepository {
    var db: Store
    /** Every token digest and session identifier handed out so far. */
    ghost var digests: set<Digest>
    ghost var ids: set<Identifier>

    /** The three structures agree now, and go on doing so as time passes. */
    ghost predicate Valid(now: int)
      reads this
    {
      forall later :: now <= later ==> Sound(db, later, digests, ids)
    }

    ghost function Sessions(now: int): Sessions
      reads this
    {
      Live(db, now)
    }

    constructor ()
      ensures db == EMPTY && digests == {} && ids == {}
      ensures forall now :: Valid(now) && Sessions(now) == map[]
    {
      db, digests, ids := EMPTY, {}, {};
    }

    lemma LiveIsKnown(now: int, digest: Digest)
      requires Valid(now) && digest in Sessions(now)
      ensures digest in digests && Sessions(now)[digest].id in ids
      ensures Unexpired(Sessions(now)[digest], now) && Sessions(now)[digest].idleExpiresAt <= Sessions(now)[digest].absoluteExpiresAt
    {
      assert Sound(db, now, digests, ids);
      assert EntryOk(db.entries[digest]);
    }

    /** CREATE_SCRIPT, which both `create` and `update` run. */
    method Create(now: int, digest: Digest, s: StoredSession) returns (created: Result<()>)
      requires Valid(now) && Unexpired(s, now) && s.idleExpiresAt <= s.absoluteExpiresAt
      requires if digest in Sessions(now) then Sessions(now)[digest].userId == s.userId && Sessions(now)[digest].id == s.id
               else digest !in digests && s.id !in ids
      modifies this
      ensures Valid(now) && digests == old(digests) + {digest} && ids == old(ids) + {s.id}
      ensures created.Ok? <==> digest in old(Sessions(now)) || |old(Sessions(now))| < MAX_ACTIVE
      ensures created.Err? ==> created.error == "browser_session_capacity_exceeded"
      ensures Sessions(now) == if created.Ok? then old(Sessions(now))[digest := s] else old(Sessions(now))
    {
      assert Sound(db, now, digests, ids);
      var ok: bool;
      db, ok := CreateScript(db, now, digest, s, digests, ids);
      digests, ids := digests + {digest}, ids + {s.id};
      StaysSound(db, now, digests, ids);
      return if ok then Ok(()) else Err("browser_session_capacity_exceeded");
    }

    method Find(now: int, digest: Digest) returns (found: Option<StoredSession>)
      requires Valid(now)
      ensures digest in Sessions(now) ==> found == Some(Sessions(now)[digest])
      ensures found.Some? && Unexpired(found.value, now) ==> digest in Sessions(now)
    {
      assert Sound(db, now, digests, ids);
      MemberIsUsers(db, Identifier(""), now, digest);
      return if Present(db, digest, now) then Some(db.entries[digest].session) else None;
    }

    method List(now: int, userId: Identifier) returns (listed: seq<StoredSession>)
      requires Valid(now)
      modifies this`db
      ensures Valid(now) && Sessions(now) == old(Sessions(now))
      ensures Lists(listed, Sessions(now), userId)
    {
      assert Sound(db, now, digests, ids);
      PurgeUserKeepsSound(db, userId, now, digests, ids);
      db := PurgeUser(db, userId, now);
      PurgeKeepsSound(db, now, digests, ids);
      db := db.(active := PurgeScores(db.active, now));
      StaysSound(db, now, digests, ids);
      var members := Members(UserScores(db, userId, now));
      assert UserScores(db, userId, now) == PurgeScores(UserScores(db, userId, now), now);
      listed := Records(db, members, userId, now, digests, ids);
    }

    /** REVOKE_SCRIPT: the record goes whoever owns it. */
    method Revoke(now: int, digest: Digest, userId: Identifier)
      requires Valid(now)
      modifies this`db
      ensures Valid(now) && Sessions(now) == old(Sessions(now)) - {digest}
    {
      assert Sound(db, now, digests, ids);
      DropKeepsSound(db, userId, {digest}, now, digests, ids);
      db := Drop(db, userId, {digest});
      StaysSound(db, now, digests, ids);
    }

    /** REVOKE_ALL_SCRIPT. */
    method RevokeAll(now: int, userId: Identifier)
      requires Valid(now)
      modifies this`db
      ensures Valid(now) && Sessions(now) == old(Sessions(now)) - Picked(old(Sessions(now)), userId, All)
    {
      var members := Members(UserScores(db, userId, now));
      assert Sound(db, now, digests, ids);
      DropRevokes(db, userId, All, now, Elements(members), digests, ids);
      db := DropEach(db, userId, members);
      StaysSound(db, now, digests, ids);
    }

    /** REVOKE_OTHERS_SCRIPT and REVOKE_BY_AUTHENTICATOR_SCRIPT, which differ in the sessions they choose. */
    method RevokeMatching(now: int, userId: Identifier, choice: Choice) returns (revoked: nat)
      requires Valid(now)
      modifies this`db
      ensures Valid(now) && Sessions(now) == old(Sessions(now)) - Picked(old(Sessions(now)), userId, choice)
      ensures revoked == |Matching(old(db), userId, choice, now)| >= |Picked(old(Sessions(now)), userId, choice)|
    {
      var members := Members(UserScores(db, userId, now));
      assert Sound(db, now, digests, ids);
      SweepRevokes(db, userId, choice, now, members, digests, ids);
      db, revoked := SweepAll(db, userId, choice, now, members);
      StaysSound(db, now, digests, ids);
    }

    /** REVOKE_BY_ID_SCRIPT: stops at the first match. */
    method RevokeById(now: int, userId: Identifier, sessionId: Identifier) returns (revoked: bool)
      requires Valid(now)
      modifies this`db
      ensures Valid(now) && Sessions(now) == old(Sessions(now)) - Picked(old(Sessions(now)), userId, Id(sessionId))
      ensures |Picked(old(Sessions(now)), userId, Id(sessionId))| <= 1
      ensures revoked <==> |Matching(old(db), userId, Id(sessionId), now)| > 0
      ensures |Picked(old(Sessions(now)), userId, Id(sessionId))| > 0 ==> revoked
    {
      var members := Members(UserScores(db, userId, now));
      assert Sound(db, now, digests, ids);
      ghost var before := db;
      ghost var seen: nat;
      db, revoked, seen := SweepUntil(db, userId, Id(sessionId), now, members);
      RevokedOne(before, userId, sessionId, now, members, seen, digests, ids);
      StaysSound(db, now, digests, ids);
    }
  }

  // ---- the scripts ----

  method CreateScript(st: Store, now: int, digest: Digest, s: StoredSession, ghost digests: set<Digest>, ghost ids: set<Identifier>)
    returns (st': Store, ok: bool)
    requires Sound(st, now, digests, ids) && Unexpired(s, now) && s.idleExpiresAt <= s.absoluteExpiresAt
    requires if digest in Live(st, now) then Live(st, now)[digest].userId == s.userId && Live(st, now)[digest].id == s.id
             else digest !in digests && s.id !in ids
    ensures Sound(st', now, digests + {digest}, ids + {s.id})
    ensures ok <==> digest in Live(st, now) || |Live(st, now)| < MAX_ACTIVE
    ensures Live(st', now) == if ok then Live(st, now)[digest := s] else Live(st, now)
  {
    RoomIff(st, now, digest);
    var active := PurgeScores(st.active, now);
    if digest !in active && |active| >= MAX_ACTIVE {
      PurgeKeepsSound(st, now, digests, ids);
      CoveredByMore(st.(active := active), now, digests, ids, digest, s.id);
      return st.(active := active), false;
    }
    var scores := UserScores(st, s.userId, now)[digest := s.idleExpiresAt];
    assert digest in scores;
    var latest := LatestScore(scores);
    PutKeepsSound(st, now, digest, s, latest, digests, ids);
    return Put(st, now, digest, s, latest), true;
  }

  /** The loop of the revoking scripts over some members: the store it leaves and how many sessions it picked. */
  function Sweep(st: Store, userId: Identifier, choice: Choice, now: int, members: seq<Digest>): (Store, nat) {
    if members == [] then (st, 0) else
    var done := Sweep(st, userId, choice, now, members[..|members| - 1]);
    var d := members[|members| - 1];
    if !Present(done.0, d, now) then (Drop(done.0, userId, {d}), done.1)
    else if Chosen(choice, done.0.entries[d].session) then (Drop(done.0, userId, {d}), done.1 + 1)
    else done
  }

  method SweepAll(st: Store, userId: Identifier, choice: Choice, now: int, members: seq<Digest>) returns (swept: Store, revoked: nat)
    ensures (swept, revoked) == Sweep(st, userId, choice, now, members)
  {
    swept, revoked := st, 0;
    for i := 0 to |members|
      invariant (swept, revoked) == Sweep(st, userId, choice, now, members[..i])
    {
      assert members[..i + 1][..i] == members[..i];
      if !Present(swept, members[i], now) {
        swept := Drop(swept, userId, {members[i]});
      } else if Chosen(choice, swept.entries[members[i]].session) {
        swept := Drop(swept, userId, {members[i]});
        revoked := revoked + 1;
      }
    }
    assert members[..|members|] == members;
  }

  /** Returns at the first match; `seen` members were looked at. */
  method SweepUntil(st: Store, userId: Identifier, choice: Choice, now: int, members: seq<Digest>)
    returns (swept: Store, revoked: bool, ghost seen: nat)
    ensures seen <= |members| && swept == Sweep(st, userId, choice, now, members[..seen]).0
    ensures revoked <==> Sweep(st, userId, choice, now, members[..seen]).1 > 0
    ensures revoked || seen == |members|
  {
    swept, revoked := st, false;
    var i := 0;
    while i < |members| && !revoked
      invariant 0 <= i <= |members|
      invariant swept == Sweep(st, userId, choice, now, members[..i]).0
      invariant revoked <==> Sweep(st, userId, choice, now, members[..i]).1 > 0
    {
      assert members[..i + 1][..i] == members[..i];
      if !Present(swept, members[i], now) {
        swept := Drop(swept, userId, {members[i]});
      } else if Chosen(choice, swept.entries[members[i]].session) {
        swept := Drop(swept, userId, {members[i]});
        revoked := true;
      }
      i := i + 1;
    }
    seen := i;
  }

  method DropEach(st: Store, userId: Identifier, members: seq<Digest>) returns (left: Store)
    ensures left == Drop(st, userId, Elements(members))
  {
    left := st;
    DropNothing(st, userId);
    assert Elements(members[..0]) == {};
    for i := 0 to |members|
      invariant left == Drop(st, userId, Elements(members[..i]))
    {
      assert Elements(members[..i + 1]) == Elements(members[..i]) + {members[i]};
      DropDrop(st, userId, Elements(members[..i]), {members[i]});
      left := Drop(left, userId, {members[i]});
    }
    assert members[..|members|] == members;
  }

  /** The stored records of the members, in their order: the MGET of `list`. */
  method Records(st: Store, members: seq<Digest>, userId: Identifier, now: int, ghost digests: set<Digest>, ghost ids: set<Identifier>)
    returns (listed: seq<StoredSession>)
    requires Sound(st, now, digests, ids) && NoDup(members)
    requires forall d :: d in members <==> d in PurgeScores(UserScores(st, userId, now), now)
    ensures Lists(listed, Live(st, now), userId)
  {
    listed := [];
    ghost var found: seq<Digest> := [];
    ghost var live := Live(st, now);
    for i := 0 to |members|
      invariant NoDup(found) && ListedAs(listed, live, found)
      invariant forall d :: d in found <==> d in members[..i] && d in live
    {
      var d := members[i];
      assert members[..i + 1] == members[..i] + [d];
      MemberIsUsers(st, userId, now, d);
      assert d !in found;
      if Present(st, d, now) {
        listed, found := listed + [st.entries[d].session], found + [d];
      }
    }
    assert members[..|members|] == members;
    AllFound(st, found, userId, now, digests, ids);
  }

  lemma AllFound(st: Store, found: seq<Digest>, userId: Identifier, now: int, digests: set<Digest>, ids: set<Identifier>)
    requires Sound(st, now, digests, ids)
    requires forall d :: d in found <==> d in PurgeScores(UserScores(st, userId, now), now) && d in Live(st, now)
    ensures Elements(found) == Picked(Live(st, now), userId, All)
  {
    forall d ensures d in Elements(found) <==> d in Picked(Live(st, now), userId, All) {
      MemberIsUsers(st, userId, now, d);
    }
  }

  // ---- proof steps ----

  predicate Picks(st: Store, choice: Choice, now: int, d: Digest) {
    Present(st, d, now) && Chosen(choice, st.entries[d].session)
  }

  function PickedOf(st: Store, choice: Choice, now: int, members: seq<Digest>): set<Digest> {
    set d | d in members && Picks(st, choice, now, d)
  }

  function DroppedOf(st: Store, choice: Choice, now: int, members: seq<Digest>): set<Digest> {
    set d | d in members && (!Present(st, d, now) || Picks(st, choice, now, d))
  }

  lemma OneMore(st: Store, choice: Choice, now: int, earlier: seq<Digest>, d: Digest)
    requires d !in earlier
    ensures DroppedOf(st, choice, now, earlier + [d])
         == if !Present(st, d, now) || Picks(st, choice, now, d) then DroppedOf(st, choice, now, earlier) + {d} else DroppedOf(st, choice, now, earlier)
    ensures |PickedOf(st, choice, now, earlier + [d])| == |PickedOf(st, choice, now, earlier)| + (if Picks(st, choice, now, d) then 1 else 0)
  {
    PickedOneMore(st, choice, now, earlier, d);
  }

  lemma PickedOneMore(st: Store, choice: Choice, now: int, earlier: seq<Digest>, d: Digest)
    ensures PickedOf(st, choice, now, earlier + [d])
         == if Picks(st, choice, now, d) then PickedOf(st, choice, now, earlier) + {d} else PickedOf(st, choice, now, earlier)
  {
  }

  lemma Untouched(st: Store, userId: Identifier, dropped: set<Digest>, choice: Choice, now: int, d: Digest)
    requires d !in dropped
    ensures Present(Drop(st, userId, dropped), d, now) <==> Present(st, d, now)
    ensures Picks(Drop(st, userId, dropped), choice, now, d) <==> Picks(st, choice, now, d)
  {
  }

  lemma SweepUnfolds(st: Store, userId: Identifier, choice: Choice, now: int, earlier: seq<Digest>, d: Digest)
    ensures
      var done := Sweep(st, userId, choice, now, earlier);
      Sweep(st, userId, choice, now, earlier + [d])
        == if !Present(done.0, d, now) then (Drop(done.0, userId, {d}), done.1)
           else if Picks(done.0, choice, now, d) then (Drop(done.0, userId, {d}), done.1 + 1)
           else done
  {
    assert (earlier + [d])[..|earlier|] == earlier;
  }

  /** Sweeping removes exactly the members that match or have no record, and counts those that match. */
  lemma {:induction false} SweepDrops(st: Store, userId: Identifier, choice: Choice, now: int, members: seq<Digest>)
    requires NoDup(members)
    ensures Sweep(st, userId, choice, now, members).0 == Drop(st, userId, DroppedOf(st, choice, now, members))
    ensures Sweep(st, userId, choice, now, members).1 == |PickedOf(st, choice, now, members)|
  {
    if members == [] {
      DropNothing(st, userId);
      assert DroppedOf(st, choice, now, members) == {};
    } else {
      var n := |members| - 1;
      var earlier, d := members[..n], members[n];
      assert members == earlier + [d];
      SweepDrops(st, userId, choice, now, earlier);
      OneMore(st, choice, now, earlier, d);
      Untouched(st, userId, DroppedOf(st, choice, now, earlier), choice, now, d);
      SweepUnfolds(st, userId, choice, now, earlier, d);
      DropDrop(st, userId, DroppedOf(st, choice, now, earlier), {d});
    }
  }

  lemma SweepRevokes(st: Store, userId: Identifier, choice: Choice, now: int, members: seq<Digest>, digests: set<Digest>, ids: set<Identifier>)
    requires Sound(st, now, digests, ids)
    requires NoDup(members) && forall d :: d in members <==> d in UserScores(st, userId, now)
    ensures
      var swept := Sweep(st, userId, choice, now, members);
      Sound(swept.0, now, digests, ids)
      && Live(swept.0, now) == Live(st, now) - Picked(Live(st, now), userId, choice)
      && swept.1 == |Matching(st, userId, choice, now)| >= |Picked(Live(st, now), userId, choice)|
  {
    SweepDrops(st, userId, choice, now, members);
    PickedAll(st, userId, choice, now, members);
    DropRevokes(st, userId, choice, now, DroppedOf(st, choice, now, members), digests, ids);
    SubsetSize(Picked(Live(st, now), userId, choice), Matching(st, userId, choice, now));
  }

  lemma OneWithId(st: Store, userId: Identifier, id: Identifier, now: int)
    requires IdsOk(st)
    ensures forall d, e :: d in Matching(st, userId, Id(id), now) && e in Matching(st, userId, Id(id), now) ==> d == e
  {
  }

  lemma AtMostOneMatches(st: Store, userId: Identifier, id: Identifier, now: int)
    requires IdsOk(st)
    ensures |Matching(st, userId, Id(id), now)| <= 1
  {
    var matching := Matching(st, userId, Id(id), now);
    OneWithId(st, userId, id, now);
    if matching != {} {
      var d :| d in matching;
      assert matching == {d};
    }
  }

  lemma PickedAll(st: Store, userId: Identifier, choice: Choice, now: int, members: seq<Digest>)
    requires forall d :: d in members <==> d in UserScores(st, userId, now)
    ensures PickedOf(st, choice, now, members) == Matching(st, userId, choice, now)
  {
  }

  /** Where the loop of `RevokeById` ends: at a match, or after the last member. */
  lemma RevokedOne(st: Store, userId: Identifier, id: Identifier, now: int, members: seq<Digest>, i: nat, digests: set<Digest>, ids: set<Identifier>)
    requires Sound(st, now, digests, ids)
    requires NoDup(members) && i <= |members| && forall d :: d in members <==> d in UserScores(st, userId, now)
    requires i == |members| || Sweep(st, userId, Id(id), now, members[..i]).1 > 0
    ensures
      var swept := Sweep(st, userId, Id(id), now, members[..i]);
      Sound(swept.0, now, digests, ids)
      && Live(swept.0, now) == Live(st, now) - Picked(Live(st, now), userId, Id(id))
      && (swept.1 > 0 <==> |Matching(st, userId, Id(id), now)| > 0)
      && 1 >= |Matching(st, userId, Id(id), now)| >= |Picked(Live(st, now), userId, Id(id))|
  {
    var matching := Matching(st, userId, Id(id), now);
    SweepDrops(st, userId, Id(id), now, members[..i]);
    AllOrOne(st, userId, id, now, members, i);
    AtMostOneMatches(st, userId, id, now);
    DropRevokes(st, userId, Id(id), now, DroppedOf(st, Id(id), now, members[..i]), digests, ids);
    SubsetSize(Picked(Live(st, now), userId, Id(id)), matching);
  }

  lemma AllOrOne(st: Store, userId: Identifier, id: Identifier, now: int, members: seq<Digest>, i: nat)
    requires IdsOk(st) && i <= |members| && forall d :: d in members <==> d in UserScores(st, userId, now)
    requires i == |members| || |PickedOf(st, Id(id), now, members[..i])| > 0
    ensures PickedOf(st, Id(id), now, members[..i]) == Matching(st, userId, Id(id), now)
  {
    if i == |members| {
      assert members[..i] == members;
      PickedAll(st, userId, Id(id), now, members);
    } else {
      OneWithId(st, userId, id, now);
      var d :| d in PickedOf(st, Id(id), now, members[..i]);
      assert d in Matching(st, userId, Id(id), now);
    }
  }

  lemma DropNothing(st: Store, userId: Identifier)
    ensures Drop(st, userId, {}) == st
  {
    if userId in st.users {
      assert st.users[userId].scores - {} == st.users[userId].scores;
    }
  }

  lemma DropKeepsSound(st: Store, userId: Identifier, dropped: set<Digest>, now: int, digests: set<Digest>, ids: set<Identifier>)
    requires Sound(st, now, digests, ids)
    ensures Sound(Drop(st, userId, dropped), now, digests, ids)
    ensures Live(Drop(st, userId, dropped), now) == Live(st, now) - dropped
  {
    DropKeepsInv(st, userId, dropped, now);
  }

  lemma DropRevokes(st: Store, userId: Identifier, choice: Choice, now: int, dropped: set<Digest>, digests: set<Digest>, ids: set<Identifier>)
    requires Sound(st, now, digests, ids)
    requires Matching(st, userId, choice, now) <= dropped <= Matching(st, userId, choice, now) + Dangling(st, userId, now)
    ensures Sound(Drop(st, userId, dropped), now, digests, ids)
    ensures Live(Drop(st, userId, dropped), now) == Live(st, now) - Picked(Live(st, now), userId, choice)
    ensures Picked(Live(st, now), userId, choice) <= Matching(st, userId, choice, now)
  {
    DropKeepsSound(st, userId, dropped, now, digests, ids);
    DropMatching(st, userId, choice, now, dropped);
  }

  lemma RoomIff(st: Store, now: int, digest: Digest)
    requires Inv(st, now)
    ensures HasRoom(st, now, digest) <==> digest in Live(st, now) || |Live(st, now)| < MAX_ACTIVE
  {
    PurgedIsLive(st, now);
    assert digest in PurgeScores(st.active, now) <==> digest in PurgeScores(st.active, now).Keys;
    assert digest in Live(st, now) <==> digest in Live(st, now).Keys;
  }

  lemma CoveredByMore(st: Store, now: int, digests: set<Digest>, ids: set<Identifier>, digest: Digest, id: Identifier)
    requires Sound(st, now, digests, ids)
    ensures Sound(st, now, digests + {digest}, ids + {id})
  {
  }

  lemma PurgeKeepsSound(st: Store, now: int, digests: set<Digest>, ids: set<Identifier>)
    requires Sound(st, now, digests, ids)
    ensures Sound(st.(active := PurgeScores(st.active, now)), now, digests, ids)
    ensures Live(st.(active := PurgeScores(st.active, now)), now) == Live(st, now)
  {
    PurgeKeepsInv(st, now);
  }

  lemma PurgeUserKeepsSound(st: Store, userId: Identifier, now: int, digests: set<Digest>, ids: set<Identifier>)
    requires Sound(st, now, digests, ids)
    ensures Sound(PurgeUser(st, userId, now), now, digests, ids)
    ensures Live(PurgeUser(st, userId, now), now) == Live(st, now)
    ensures UserScores(PurgeUser(st, userId, now), userId, now) == PurgeScores(UserScores(PurgeUser(st, userId, now), userId, now), now)
  {
    PurgeUserKeepsInv(st, userId, now);
  }

  lemma PutKeepsSound(st: Store, now: int, digest: Digest, s: StoredSession, latest: int, digests: set<Digest>, ids: set<Identifier>)
    requires Sound(st, now, digests, ids)
    requires HasRoom(st, now, digest) && Unexpired(s, now) && s.idleExpiresAt <= s.absoluteExpiresAt
    requires Latest(UserScores(st, s.userId, now)[digest := s.idleExpiresAt], latest)
    requires if digest in Live(st, now) then Live(st, now)[digest].userId == s.userId && Live(st, now)[digest].id == s.id
             else digest !in digests && s.id !in ids
    ensures Sound(Put(st, now, digest, s, latest), now, digests + {digest}, ids + {s.id})
    ensures Live(Put(st, now, digest, s, latest), now) == Live(st, now)[digest := s]
  {
    MayPutOwn(st, now, digest, s, digests, ids);
    PutKeepsInv(st, now, digest, s, latest);
    PutCovered(st, now, digest, s, latest, digests, ids);
  }

  lemma PutCovered(st: Store, now: int, digest: Digest, s: StoredSession, latest: int, digests: set<Digest>, ids: set<Identifier>)
    requires Covered(st, digests, ids)
    ensures Covered(Put(st, now, digest, s, latest), digests + {digest}, ids + {s.id})
  {
  }

  lemma MayPutOwn(st: Store, now: int, digest: Digest, s: StoredSession, digests: set<Digest>, ids: set<Identifier>)
    requires Sound(st, now, digests, ids)
    requires if digest in Live(st, now) then Live(st, now)[digest].userId == s.userId && Live(st, now)[digest].id == s.id
             else digest !in digests && s.id !in ids
    ensures digest in st.entries ==> st.entries[digest].session.userId == s.userId
    ensures digest !in st.entries ==> forall u :: u in st.users ==> digest !in st.users[u].scores
    ensures forall d :: d in st.entries && st.entries[d].session.id == s.id ==> d == digest
  {
  }
}
