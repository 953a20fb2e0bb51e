/** Every step keeps the invariant, and what that means for any client in any run. */
module PlaySafety {
  import opened EntityIds
  import opened Options
  import opened Play
  import opened PlayProtocol
  import opened PacketOrder

  /** What one packet burst does to the client's replayed state. */
  lemma StreamGrows(s: System, s': System, c: Uuid, more: seq<Packet>)
    requires Live(s, c) && Live(s', c) && ClientInv(s, c)
    requires Stream(s', c) == Stream(s, c) + more
    ensures Replay(FRESH_CLIENT, Stream(s', c)) == Replay(Replay(FRESH_CLIENT, Stream(s, c)).value, more)
  {
    hide Replay, Deliver, Mirrors;
    ReplayAppend(FRESH_CLIENT, Stream(s, c), more);
  }

  /** Nothing client `c` is told of changed between two states, apart from movements being recorded. */
  ghost predicate SameNews(s: System, s': System, c: Uuid) {
    && Live(s, c)
    && Live(s', c)
    && s'.players[c].visible == s.players[c].visible
    && s'.conns[c].mobs == s.conns[c].mobs
    && (forall p :: ToldOf(s', c, p) <==> ToldOf(s, c, p))
    && (forall p :: ToldOf(s, c, p) ==>
          && Live(s, p)
          && Live(s', p)
          && s'.players[p].entityId == s.players[p].entityId
          && (s'.conns[p].pending.None? ==> s.conns[p].pending.None? && s'.players[p].pos == s.players[p].pos))
  }

  /** No id changes hands: whoever is registered was so under the same id, or has a new one. */
  ghost predicate IdsKept(s: System, s': System) {
    && s.nextId <= s'.nextId
    && (forall p :: p in s'.players ==>
          || (p in s.players && s'.players[p].entityId == s.players[p].entityId)
          || s'.players[p].entityId >= s.nextId)
  }

  lemma StillGone(s: System, s': System, k: Client, k': Client)
    requires StayGone(s, k) && IdsKept(s, s') && k'.gone == k.gone
    ensures StayGone(s', k')
  {}

  /** A client with the same news and the same replayed stream stays mirrored. */
  lemma SameClient(s: System, s': System, c: Uuid)
    requires SameNews(s, s', c) && IdsKept(s, s') && ClientInv(s, c)
    requires Replay(FRESH_CLIENT, Stream(s', c)) == Replay(FRESH_CLIENT, Stream(s, c))
    ensures ClientInv(s', c)
  {
    hide Replay, Deliver, Stream, ToldOf, Live, StayGone, IdsKept;
    var k := Replay(FRESH_CLIENT, Stream(s, c)).value;
    StillGone(s, s', k, k);
    forall p | ToldOf(s', c, p)
      ensures SeesPlayer(s', k, p)
    {
      assert ToldOf(s, c, p);
      assert SeesPlayer(s, k, p);
    }
  }

  // ------------------------------------------------------------------------ join

  lemma SnapshotFacts(s: System, u: Uuid, existing: seq<Existing>, spawn: Pos)
    requires Enabled(s, Join(u, existing), spawn)
    ensures forall i :: 0 <= i < |existing| ==>
      var e := existing[i];
      e.uuid != u && e.uuid in s.players && e.entityId == s.players[e.uuid].entityId && e.pos == s.players[e.uuid].pos
    ensures forall id :: id in SnapshotIds(existing) <==> exists i :: 0 <= i < |existing| && existing[i].entityId == id
    ensures forall p :: p in s.players ==> exists i :: 0 <= i < |existing| && existing[i].uuid == p
    ensures forall i, j :: 0 <= i < j < |existing| ==> existing[i].uuid != existing[j].uuid
  {
    forall id | id in SnapshotIds(existing)
      ensures exists i :: 0 <= i < |existing| && existing[i].entityId == id
    {
      var e :| e in existing && e.entityId == id;
      var i :| 0 <= i < |existing| && existing[i] == e;
    }
    forall i | 0 <= i < |existing|
      ensures existing[i].entityId in SnapshotIds(existing)
    {
      assert existing[i] in existing;
    }
    var all := s.players[u := SharedPlayer(s.nextId, spawn, LEVEL, {}, [])];
    forall p | p in s.players
      ensures exists i :: 0 <= i < |existing| && existing[i].uuid == p
    {
      assert p in all && p != u;
    }
  }

  lemma JoinBooks(s: System, u: Uuid, existing: seq<Existing>, spawn: Pos)
    requires Bookkeeping(s, spawn) && Enabled(s, Join(u, existing), spawn)
    ensures Bookkeeping(AfterJoin(s, u, existing, spawn), spawn)
  {
    hide IsSnapshot, SnapshotIds, Introduction;
    SnapshotFacts(s, u, existing, spawn);
    forall id | id in SnapshotIds(existing)
      ensures id < s.nextId
    {
      var i :| 0 <= i < |existing| && existing[i].entityId == id;
    }
  }

  lemma JoinOther(s: System, u: Uuid, existing: seq<Existing>, spawn: Pos, c: Uuid)
    requires Bookkeeping(s, spawn) && Enabled(s, Join(u, existing), spawn)
    requires c in s.players && ClientInv(s, c)
    ensures ClientInv(AfterJoin(s, u, existing, spawn), c)
  {
    hide Replay, Mirrors, IsSnapshot, SnapshotIds, Introduction, ToldOf, SameNews, Sound, DistinctIds;
    var s' := AfterJoin(s, u, existing, spawn);
    assert Stream(s', c) == Stream(s, c);
    JoinNews(s, u, existing, spawn, c);
    SameClient(s, s', c);
  }

  /** The newcomer is news to nobody: it has not been announced, and its id is in no snapshot. */
  lemma JoinNews(s: System, u: Uuid, existing: seq<Existing>, spawn: Pos, c: Uuid)
    requires Bookkeeping(s, spawn) && Enabled(s, Join(u, existing), spawn) && c in s.players
    ensures SameNews(s, AfterJoin(s, u, existing, spawn), c)
  {
    hide IsSnapshot, SnapshotIds, Introduction, DistinctIds, Sound, ToldOf;
    var s' := AfterJoin(s, u, existing, spawn);
    forall p
      ensures ToldOf(s', c, p) <==> ToldOf(s, c, p)
      ensures ToldOf(s, c, p) ==>
        Live(s, p) && Live(s', p) && s'.players[p] == s.players[p] && s'.conns[p] == s.conns[p]
    {
      JoinTold(s, u, existing, spawn, c, p);
    }
  }

  lemma JoinTold(s: System, u: Uuid, existing: seq<Existing>, spawn: Pos, c: Uuid, p: Uuid)
    requires Bookkeeping(s, spawn) && Enabled(s, Join(u, existing), spawn) && c in s.players
    ensures var s' := AfterJoin(s, u, existing, spawn);
      && (ToldOf(s', c, p) <==> ToldOf(s, c, p))
      && (ToldOf(s, c, p) ==> Live(s, p) && s'.players[p] == s.players[p] && s'.conns[p] == s.conns[p])
  {
    hide IsSnapshot, SnapshotIds, Introduction, DistinctIds, Sound;
    SnapshotOlder(s.players[c], s.conns[c], s.nextId, spawn);
  }

  lemma SnapshotOlder(p: SharedPlayer, c: Conn, nextId: int, spawn: Pos)
    requires Sound(p, c, nextId, spawn)
    ensures nextId !in c.snapshot
  {}

  /** The newcomer's own direct writes give it everyone in its snapshot. */
  lemma JoinSelf(s: System, u: Uuid, existing: seq<Existing>, spawn: Pos)
    requires Bookkeeping(s, spawn) && Enabled(s, Join(u, existing), spawn)
    ensures ClientInv(AfterJoin(s, u, existing, spawn), u)
  {
    hide Replay, Deliver, IntroduceAll, IsSnapshot, SnapshotIds, Introduction, Introduced, Mirrors;
    SnapshotFacts(s, u, existing, spawn);
    var s' := AfterJoin(s, u, existing, spawn);
    assert Stream(s', u) == [PlayerInfo(u)] + Introduction(existing);
    NewcomerReplay(u, existing);
    NewcomerMirrors(s, s', u, existing, spawn, Replay(FRESH_CLIENT, [PlayerInfo(u)] + Introduction(existing)).value);
  }

  lemma NewcomerReplay(u: Uuid, existing: seq<Existing>)
    requires forall i, j :: 0 <= i < j < |existing| ==> existing[i].entityId != existing[j].entityId
    ensures Replay(FRESH_CLIENT, [PlayerInfo(u)] + Introduction(existing)).Some?
    ensures Introduced(Replay(FRESH_CLIENT, [PlayerInfo(u)] + Introduction(existing)).value, u, existing)
    ensures Replay(FRESH_CLIENT, [PlayerInfo(u)] + Introduction(existing)).value.gone == {}
  {
    hide Replay, Deliver, Introduction;
    var k := FRESH_CLIENT.(tab := {u});
    assert FRESH_CLIENT.tab + {u} == {u};
    DeliverInfo(FRESH_CLIENT, u);
    ReplayCons(FRESH_CLIENT, PlayerInfo(u), Introduction(existing));
    ReplayIntroduction(k, existing);
  }

  /** The newcomer is told of exactly the players who were there. */
  lemma NewcomerToldOf(s: System, s': System, u: Uuid, existing: seq<Existing>, spawn: Pos, p: Uuid)
    requires Enabled(s, Join(u, existing), spawn) && s.conns.Keys == s.players.Keys
    requires s'.players == s.players[u := SharedPlayer(s.nextId, spawn, LEVEL, {}, [])]
      && s'.conns.Keys == s'.players.Keys
    requires s'.conns[u].snapshot == SnapshotIds(existing)
    ensures ToldOf(s', u, p) <==> p in s.players
  {
    hide IsSnapshot, SnapshotIds;
    SnapshotFacts(s, u, existing, spawn);
    if p in s.players {
      var i :| 0 <= i < |existing| && existing[i].uuid == p;
      assert existing[i].entityId in SnapshotIds(existing);
    }
  }

  /** A client that was introduced to `existing` and nobody else. */
  ghost predicate Introduced(k: Client, u: Uuid, existing: seq<Existing>) {
    && !k.bundle
    && (forall p :: p in k.tab <==> p == u || exists i :: 0 <= i < |existing| && existing[i].uuid == p)
    && (forall i :: 0 <= i < |existing| ==>
          existing[i].entityId in k.entities
            && k.entities[existing[i].entityId] == PlayerSeen(existing[i].uuid, existing[i].pos, true))
    && (forall id :: id in k.entities ==> exists i :: 0 <= i < |existing| && existing[i].entityId == id)
  }

  lemma NewcomerSees(s: System, u: Uuid, existing: seq<Existing>, spawn: Pos, k: Client, p: Uuid)
    requires Enabled(s, Join(u, existing), spawn) && Introduced(k, u, existing)
    ensures p in k.tab <==> p == u || p in s.players
    ensures p in s.players ==>
      s.players[p].entityId in k.entities && k.entities[s.players[p].entityId] == PlayerSeen(p, s.players[p].pos, true)
  {
    hide IsSnapshot, SnapshotIds;
    SnapshotFacts(s, u, existing, spawn);
    if p in s.players {
      var i :| 0 <= i < |existing| && existing[i].uuid == p;
      assert k.entities[existing[i].entityId] == PlayerSeen(p, s.players[p].pos, true);
    }
  }

  lemma NewcomerOwner(s: System, u: Uuid, existing: seq<Existing>, spawn: Pos, k: Client, id: int)
    requires Enabled(s, Join(u, existing), spawn) && Introduced(k, u, existing) && id in k.entities
    ensures k.entities[id].PlayerSeen? && k.entities[id].uuid in s.players
      && s.players[k.entities[id].uuid].entityId == id
  {
    hide IsSnapshot, SnapshotIds;
    SnapshotFacts(s, u, existing, spawn);
    var i :| 0 <= i < |existing| && existing[i].entityId == id;
  }

  lemma NewcomerMirrors(s: System, s': System, u: Uuid, existing: seq<Existing>, spawn: Pos, k: Client)
    requires Enabled(s, Join(u, existing), spawn) && s.conns.Keys == s.players.Keys
    requires s'.players == s.players[u := SharedPlayer(s.nextId, spawn, LEVEL, {}, [])]
      && s'.conns.Keys == s'.players.Keys
    requires s'.conns[u].snapshot == SnapshotIds(existing) && s'.conns[u].mobs == map[]
    requires forall p :: p in s.conns ==> s'.conns[p] == s.conns[p]
    requires Introduced(k, u, existing)
    ensures Mirrors(s', u, k)
  {
    hide IsSnapshot, SnapshotIds, ToldOf, Mirrors;
    forall p
      ensures ToldOf(s', u, p) <==> p in s.players
      ensures p in k.tab <==> p == u || p in s.players
      ensures p in s.players ==> SeesPlayer(s', k, p)
    {
      NewcomerToldOf(s, s', u, existing, spawn, p);
      NewcomerSees(s, u, existing, spawn, k, p);
    }
    forall id | id in k.entities
      ensures OwnedBy(s', k.entities[id], s.players.Keys, id)
    {
      NewcomerOwner(s, u, existing, spawn, k, id);
    }
    MirrorsIfTold(s', u, k, s.players.Keys);
  }

  ghost predicate OwnedBy(s: System, e: Seen, owners: set<Uuid>, id: int) {
    && e.PlayerSeen? && e.uuid in owners && e.uuid in s.players && s.players[e.uuid].entityId == id
  }

  /** A client that sees no mobs and is told of `others`, all of whom it shows, is mirrored. */
  lemma MirrorsIfTold(s: System, u: Uuid, k: Client, others: set<Uuid>)
    requires Live(s, u) && s.players[u].visible == {} && s.conns[u].mobs == map[] && !k.bundle
    requires forall p :: ToldOf(s, u, p) <==> p in others
    requires forall p :: p in k.tab <==> p == u || p in others
    requires forall p :: p in others ==> Live(s, p) && SeesPlayer(s, k, p)
    requires forall id :: id in k.entities ==> OwnedBy(s, k.entities[id], others, id)
    ensures Mirrors(s, u, k)
  {
    hide ToldOf, SeesPlayer, Live;
  }

  lemma DeliverInfo(k: Client, u: Uuid)
    ensures Deliver(k, PlayerInfo(u)) == Some(k.(tab := k.tab + {u}))
    ensures Deliver(k, Delimiter) == Some(k.(bundle := !k.bundle))
    ensures Deliver(k, Other) == Some(k)
  {}

  /** The bracketed introduction: as `ReplayIntroduceAll`, with the bundle closed again. */
  lemma ReplayIntroduction(k: Client, existing: seq<Existing>)
    requires forall i, j :: 0 <= i < j < |existing| ==> existing[i].entityId != existing[j].entityId
    requires forall i :: 0 <= i < |existing| ==> existing[i].entityId !in k.entities && existing[i].entityId !in k.gone
    requires !k.bundle
    ensures Replay(k, Introduction(existing)).Some?
    ensures var k' := Replay(k, Introduction(existing)).value;
            && k'.bundle == k.bundle && k'.gone == k.gone
            && (forall u :: u in k'.tab <==> u in k.tab || exists i :: 0 <= i < |existing| && existing[i].uuid == u)
            && (forall i :: 0 <= i < |existing| ==>
                  existing[i].entityId in k'.entities
                  && k'.entities[existing[i].entityId] == PlayerSeen(existing[i].uuid, existing[i].pos, true))
            && (forall id :: id in k'.entities ==>
                  id in k.entities || exists i :: 0 <= i < |existing| && existing[i].entityId == id)
  {
    hide Deliver, IntroduceAll;
    if |existing| > 0 {
      var all := IntroduceAll(existing);
      var k0 := k.(bundle := !k.bundle);
      assert Introduction(existing) == [Delimiter] + (all + [Delimiter]);
      DeliverInfo(k, 0);
      ReplayCons(k, Delimiter, all + [Delimiter]);
      ReplayIntroduceAll(k0, existing);
      var k1 := Replay(k0, all).value;
      ReplayAppend(k0, all, [Delimiter]);
      ReplayOne(k1, Delimiter);
      DeliverInfo(k1, 0);
    }
  }

  // ----------------------------------------------------------------------- leave

  lemma LeaveBooks(s: System, u: Uuid, spawn: Pos)
    requires Bookkeeping(s, spawn) && Live(s, u)
    ensures Bookkeeping(AfterLeave(s, u), spawn)
  {
    hide LeaveFrames, Sound, DistinctIds;
    var s' := AfterLeave(s, u);
    forall v | v in s'.players
      ensures v in s.players && SameRecord(s.players[v], s'.players[v])
      ensures Sound(s'.players[v], s'.conns[v], s'.nextId, spawn)
    {
      SoundKept(s.players[v], s'.players[v], s.conns[v], s.nextId, spawn);
    }
    DistinctKept(s.players, s'.players);
  }

  /** Only channel and facing may differ. */
  ghost predicate SameRecord(p: SharedPlayer, p': SharedPlayer) {
    p'.entityId == p.entityId && p'.pos == p.pos && p'.visible == p.visible
  }

  lemma SoundKept(p: SharedPlayer, p': SharedPlayer, c: Conn, nextId: int, spawn: Pos)
    requires Sound(p, c, nextId, spawn) && SameRecord(p, p')
    ensures Sound(p', c, nextId, spawn)
  {}

  lemma DistinctKept(players: Players, players': Players)
    requires DistinctIds(players) && forall u :: u in players' ==>
      u in players && players'[u].entityId == players[u].entityId
    ensures DistinctIds(players')
  {}

  /** Broadcasting changes channels only. */
  lemma SentBooks(s: System, except: Option<Uuid>, packets: seq<Packet>, spawn: Pos)
    requires Bookkeeping(s, spawn)
    ensures Bookkeeping(s.(players := Sent(s.players, except, packets)), spawn)
  {
    hide Sound, DistinctIds;
    var players := Sent(s.players, except, packets);
    forall v | v in players
      ensures Sound(players[v], s.conns[v], s.nextId, spawn)
    {
      SoundKept(s.players[v], players[v], s.conns[v], s.nextId, spawn);
    }
    DistinctKept(s.players, players);
  }

  lemma LeaveClient(s: System, u: Uuid, spawn: Pos, c: Uuid)
    requires Bookkeeping(s, spawn) && Live(s, u) && Live(s, c) && c != u && ClientInv(s, c)
    ensures ClientInv(AfterLeave(s, u), c)
  {
    hide Replay, Deliver, LeaveFrames, Mirrors;
    var s' := AfterLeave(s, u);
    var id := s.players[u].entityId;
    var k := Replay(FRESH_CLIENT, Stream(s, c)).value;
    assert s'.players[c].out == s.players[c].out + LeaveFrames(u, id);
    assert Stream(s', c) == Stream(s, c) + LeaveFrames(u, id);
    StreamGrows(s, s', c, LeaveFrames(u, id));
    ReplayLeave(k, u, id);
    MirrorsAfterLeave(s, s', u, c, k, k.(tab := k.tab - {u}, entities := k.entities - {id}, gone := k.gone + {id}));
  }

  lemma MirrorsAfterLeave(s: System, s': System, u: Uuid, c: Uuid, k: Client, k': Client)
    requires Live(s, u) && Live(s, c) && Live(s', c) && c != u && Mirrors(s, c, k)
    requires k'.tab == k.tab - {u} && k'.entities == k.entities - {s.players[u].entityId} && k'.bundle == k.bundle
    requires s.players[u].entityId !in s.players[c].visible
    requires forall p :: Live(s, p) && p != u ==> s.players[p].entityId != s.players[u].entityId
    requires s'.conns == s.conns - {u} && s'.players.Keys == s.players.Keys - {u}
    requires forall p :: p in s'.players ==>
      s'.players[p].entityId == s.players[p].entityId && s'.players[p].pos == s.players[p].pos
        && s'.players[p].visible == s.players[p].visible
    ensures Mirrors(s', c, k')
  {
    forall p
      ensures ToldOf(s', c, p) <==> ToldOf(s, c, p) && p != u
    {
    }
  }

  // ------------------------------------------------- writes that change nothing

  lemma WriteDirectClient(s: System, u: Uuid, c: Uuid)
    requires Live(s, u) && |s.conns[u].todo| > 0 && Live(s, c) && ClientInv(s, c)
    ensures ClientInv(AfterWriteDirect(s, u), c)
  {
    hide Replay, Mirrors;
    var s' := AfterWriteDirect(s, u);
    var w, todo := s.conns[u].wire, s.conns[u].todo;
    assert w + [todo[0]] + todo[1..] == w + todo;
    assert Stream(s', c) == Stream(s, c);
    SameClient(s, s', c);
  }

  lemma DrainClient(s: System, u: Uuid, c: Uuid)
    requires Live(s, u) && |s.players[u].out| > 0 && s.conns[u].todo == [] && Live(s, c) && ClientInv(s, c)
    ensures ClientInv(AfterDrain(s, u), c)
  {
    hide Replay, Mirrors;
    var s' := AfterDrain(s, u);
    var w, out := s.conns[u].wire, s.players[u].out;
    assert w + [out[0]] + [] + out[1..] == w + [] + out;
    assert Stream(s', c) == Stream(s, c);
    SameClient(s, s', c);
  }

  lemma WriteOtherClient(s: System, u: Uuid, c: Uuid)
    requires Live(s, u) && Live(s, c) && ClientInv(s, c)
    ensures ClientInv(AfterWriteOther(s, u), c)
  {
    hide Replay, Mirrors;
    var s' := AfterWriteOther(s, u);
    if c == u {
      var w, rest := s.conns[u].wire, s.conns[u].todo + s.players[u].out;
      assert Stream(s, u) == w + rest;
      assert Stream(s', u) == w + ([Other] + rest);
      OtherIsSkipped(FRESH_CLIENT, w, rest);
    } else {
      assert Stream(s', c) == Stream(s, c);
    }
    SameClient(s, s', c);
  }

  lemma OtherIsSkipped(k: Client, a: seq<Packet>, b: seq<Packet>)
    requires Replay(k, a + b).Some?
    ensures Replay(k, a + ([Other] + b)) == Replay(k, a + b)
  {
    hide Replay, Deliver;
    ReplayAppend(k, a, b);
    ReplayAppend(k, a, [Other] + b);
    var k' := Replay(k, a).value;
    DeliverInfo(k', 0);
    ReplayCons(k', Other, b);
  }

  // ------------------------------------------------------------------ broadcasts

  lemma AnnounceClient(s: System, u: Uuid, spawn: Pos, c: Uuid)
    requires Bookkeeping(s, spawn) && Live(s, u) && s.conns[u].todo == [] && !s.conns[u].announced
    requires Live(s, c) && ClientInv(s, c)
    ensures ClientInv(AfterAnnounce(s, u, spawn), c)
  {
    hide *;
    if c == u {
      AnnounceSelf(s, u, spawn);
    } else {
      AnnounceOther(s, u, spawn, c);
    }
  }

  lemma AnnounceSelf(s: System, u: Uuid, spawn: Pos)
    requires Live(s, u) && ClientInv(s, u)
    ensures ClientInv(AfterAnnounce(s, u, spawn), u)
  {
    hide Replay, Mirrors, JoinFrames;
    var s' := AfterAnnounce(s, u, spawn);
    assert Stream(s', u) == Stream(s, u);
    SameClient(s, s', u);
  }

  lemma AnnounceOther(s: System, u: Uuid, spawn: Pos, c: Uuid)
    requires Bookkeeping(s, spawn) && Live(s, u) && !s.conns[u].announced
    requires c != u && Live(s, c) && ClientInv(s, c)
    ensures ClientInv(AfterAnnounce(s, u, spawn), c)
  {
    hide Replay, Deliver, JoinFrames, Mirrors;
    var s' := AfterAnnounce(s, u, spawn);
    var id := s.players[u].entityId;
    var k := Replay(FRESH_CLIENT, Stream(s, c)).value;
    assert s'.players[c].out == s.players[c].out + JoinFrames(u, id, spawn);
    assert Stream(s', c) == Stream(s, c) + JoinFrames(u, id, spawn);
    StreamGrows(s, s', c, JoinFrames(u, id, spawn));
    NoOpenBundle(s, c, k);
    ReplayJoin(k, u, id, spawn);
    var k' := k.(tab := k.tab + {u}, entities := k.entities[id := PlayerSeen(u, spawn, true)]);
    MirrorsAfterAnnounce(s, s', u, c, k, k', spawn);
  }

  lemma NoOpenBundle(s: System, c: Uuid, k: Client)
    requires Live(s, c) && Mirrors(s, c, k)
    ensures !k.bundle
  {}

  lemma MirrorsAfterAnnounce(s: System, s': System, u: Uuid, c: Uuid, k: Client, k': Client, spawn: Pos)
    requires Live(s, u) && Live(s, c) && Live(s', c) && c != u && Mirrors(s, c, k)
    requires k' == k.(tab := k.tab + {u}, entities := k.entities[s.players[u].entityId := PlayerSeen(u, spawn, true)])
    requires s.players[u].entityId !in s.players[c].visible && s.players[u].pos == spawn
    requires forall p :: Live(s, p) && p != u ==> s.players[p].entityId != s.players[u].entityId
    requires s'.conns == s.conns[u := s.conns[u].(announced := true)] && s'.players.Keys == s.players.Keys
    requires forall p :: p in s'.players ==>
      s'.players[p].entityId == s.players[p].entityId && s'.players[p].pos == s.players[p].pos
        && s'.players[p].visible == s.players[p].visible
    ensures Mirrors(s', c, k')
  {
    forall p
      ensures ToldOf(s', c, p) <==> ToldOf(s, c, p) || p == u
    {
    }
  }

  lemma RecordClient(s: System, u: Uuid, at: Pos, look: Option<Facing>, c: Uuid)
    requires Live(s, u) && Live(s, c) && ClientInv(s, c)
    ensures ClientInv(AfterRecord(s, u, at, look), c)
  {
    hide Replay, Mirrors, StayGone, SameNews, ToldOf;
    var s' := AfterRecord(s, u, at, look);
    assert Stream(s', c) == Stream(s, c);
    RecordNews(s, u, at, look, c);
    SameClient(s, s', c);
  }

  lemma RecordNews(s: System, u: Uuid, at: Pos, look: Option<Facing>, c: Uuid)
    requires Live(s, u) && Live(s, c)
    ensures SameNews(s, AfterRecord(s, u, at, look), c)
  {
    var s' := AfterRecord(s, u, at, look);
    forall p
      ensures ToldOf(s', c, p) <==> ToldOf(s, c, p)
    {
    }
  }

  lemma FaceClient(s: System, u: Uuid, look: Facing, c: Uuid)
    requires Live(s, u) && Live(s, c) && ClientInv(s, c)
    ensures ClientInv(AfterFace(s, u, look), c)
  {
    hide Replay, Mirrors;
    var s' := AfterFace(s, u, look);
    assert Stream(s', c) == Stream(s, c);
    SameClient(s, s', c);
  }

  lemma PublishClient(s: System, u: Uuid, c: Uuid)
    requires Live(s, u) && s.conns[u].announced && s.conns[u].pending == Some(s.players[u].pos)
    requires Live(s, c) && ClientInv(s, c)
    ensures ClientInv(AfterPublish(s, u), c)
  {
    hide Replay;
    var s' := AfterPublish(s, u);
    var id, at := s.players[u].entityId, s.players[u].pos;
    if c == u {
      hide Mirrors;
      assert Stream(s', c) == Stream(s, c);
      SameClient(s, s', c);
    } else {
      var k := Replay(FRESH_CLIENT, Stream(s, c)).value;
      assert s'.players[c].out == s.players[c].out + [SyncPosition(id, at)];
      assert Stream(s', c) == Stream(s, c) + [SyncPosition(id, at)];
      StreamGrows(s, s', c, [SyncPosition(id, at)]);
      assert ToldOf(s, c, u);
      ReplayOne(k, SyncPosition(id, at));
      MirrorsAfterPublish(s, s', u, c, k, k.(entities := k.entities[id := PlayerSeen(u, at, true)]));
    }
  }

  lemma MirrorsAfterPublish(s: System, s': System, u: Uuid, c: Uuid, k: Client, k': Client)
    requires Live(s, u) && Live(s, c) && Live(s', c) && c != u && Mirrors(s, c, k) && ToldOf(s, c, u)
    requires k' == k.(entities := k.entities[s.players[u].entityId := PlayerSeen(u, s.players[u].pos, true)])
    requires s'.conns == s.conns[u := s.conns[u].(pending := None)] && s'.players.Keys == s.players.Keys
    requires forall p :: p in s'.players ==>
      s'.players[p].entityId == s.players[p].entityId && s'.players[p].pos == s.players[p].pos
        && s'.players[p].visible == s.players[p].visible
    ensures Mirrors(s', c, k')
  {
    forall p
      ensures ToldOf(s', c, p) <==> ToldOf(s, c, p)
    {
    }
  }

  lemma TurnClient(s: System, u: Uuid, p: Packet, c: Uuid)
    requires Live(s, u) && s.conns[u].announced
    requires p == Look(s.players[u].entityId) || p == HeadRotation(s.players[u].entityId) || p == Other
    requires Live(s, c) && ClientInv(s, c)
    ensures ClientInv(AfterTurn(s, u, p), c)
  {
    hide Replay;
    var s' := AfterTurn(s, u, p);
    if c == u {
      assert Stream(s', c) == Stream(s, c);
    } else {
      var k := Replay(FRESH_CLIENT, Stream(s, c)).value;
      assert s'.players[c].out == s.players[c].out + [p];
      assert Stream(s', c) == Stream(s, c) + [p];
      StreamGrows(s, s', c, [p]);
      assert ToldOf(s, c, u);
      ReplayOne(k, p);
    }
    hide Mirrors;
    SameClient(s, s', c);
  }

  lemma TickClient(s: System, mobs: seq<Mob>, spawn: Pos, c: Uuid)
    requires Bookkeeping(s, spawn) && DistinctMobs(mobs) && forall m :: m in mobs ==> m.id >= MOB_ID_BASE
    requires |mobs| > 0 && Live(s, c) && ClientInv(s, c)
    ensures ClientInv(AfterTick(s, mobs), c)
  {
    hide Replay, Deliver, InView, TickFrames, VisibleIds, Shown, Mirrors, StayGone, ToldOf;
    var s' := AfterTick(s, mobs);
    var p, told := s.players[c], s.conns[c].mobs;
    var k := Replay(FRESH_CLIENT, Stream(s, c)).value;
    assert s'.players[c].out == p.out + TickFrames(mobs, p.visible, p.pos);
    assert Stream(s', c) == Stream(s, c) + TickFrames(mobs, p.visible, p.pos);
    StreamGrows(s, s', c, TickFrames(mobs, p.visible, p.pos));
    HeldMobs(s, c, k, spawn);
    ReplayTick(k, mobs, p.visible, p.pos);
    var k', now := Replay(k, TickFrames(mobs, p.visible, p.pos)).value, VisibleIds(mobs, p.pos);
    ShownIsSeen(mobs, p.visible, p.pos, told, k, k');
    MirrorsAfterTick(s, s', c, k, k', now);
    StillGone(s, s', k, k');
  }

  /** The mobs a mirrored client holds, and the ids it will never hold again. */
  lemma HeldMobs(s: System, c: Uuid, k: Client, spawn: Pos)
    requires Bookkeeping(s, spawn) && Live(s, c) && Mirrors(s, c, k) && StayGone(s, k)
    ensures s.conns[c].mobs.Keys == s.players[c].visible
    ensures forall id :: id in s.players[c].visible ==>
      id >= MOB_ID_BASE && id in k.entities && k.entities[id] == MobSeen(s.conns[c].mobs[id])
    ensures forall id :: id in k.entities && id >= MOB_ID_BASE ==> id in s.players[c].visible
    ensures forall id :: id in k.gone ==> id < MOB_ID_BASE
    ensures forall p :: p in s.players ==> s.players[p].entityId < MOB_ID_BASE
  {
    assert Sound(s.players[c], s.conns[c], s.nextId, spawn);
    forall p | p in s.players
      ensures s.players[p].entityId < MOB_ID_BASE
    {
      assert Sound(s.players[p], s.conns[p], s.nextId, spawn);
    }
  }

  /** What the client shows after a tick is what the server says it was told. */
  lemma ShownIsSeen(mobs: seq<Mob>, before: set<int>, at: Pos, told: map<int, Pos>, k: Client, k': Client)
    requires DistinctMobs(mobs) && told.Keys == before
    requires forall id :: id in before ==> id in k.entities && k.entities[id] == MobSeen(told[id])
    requires forall m :: m in mobs && InView(m, at) ==>
      && m.id in k'.entities
      && k'.entities[m.id] == MobSeen(if m.moved || m.id !in before then m.pos else k.entities[m.id].pos)
    ensures Shown(mobs, at, told).Keys == VisibleIds(mobs, at)
    ensures forall id :: id in VisibleIds(mobs, at) ==>
      id in k'.entities && k'.entities[id] == MobSeen(Shown(mobs, at, told)[id])
  {
    hide InView;
  }

  lemma MirrorsAfterTick(s: System, s': System, c: Uuid, k: Client, k': Client, now: set<int>)
    requires Live(s, c) && Live(s', c) && Mirrors(s, c, k)
    requires s'.conns.Keys == s.conns.Keys && s'.players.Keys == s.players.Keys
    requires forall p :: p in s'.conns ==> s'.conns[p] == s.conns[p].(mobs := s'.conns[p].mobs)
    requires s'.players[c].visible == now && s'.conns[c].mobs.Keys == now
    requires forall p :: p in s'.players ==>
      s'.players[p].entityId == s.players[p].entityId && s'.players[p].pos == s.players[p].pos
    requires forall p :: p in s.players ==>
      s.players[p].entityId !in s.players[c].visible && s.players[p].entityId !in now
    requires k'.tab == k.tab && k'.bundle == k.bundle
    requires forall id :: id in now ==> id in k'.entities && k'.entities[id] == MobSeen(s'.conns[c].mobs[id])
    requires forall id :: id in k.entities && id !in s.players[c].visible ==>
      id in k'.entities && k'.entities[id] == k.entities[id]
    requires forall id :: id in k'.entities ==>
      id in now || (id in k.entities && id !in s.players[c].visible && k'.entities[id] == k.entities[id])
    ensures Mirrors(s', c, k')
  {
    forall p
      ensures ToldOf(s', c, p) <==> ToldOf(s, c, p)
    {
    }
  }

  // --------------------------------------------------------------- main results

  lemma WriteOtherBooks(s: System, u: Uuid, spawn: Pos)
    requires Bookkeeping(s, spawn) && Live(s, u)
    ensures Bookkeeping(AfterWriteOther(s, u), spawn)
  {
    hide DistinctIds;
  }

  lemma WriteDirectBooks(s: System, u: Uuid, spawn: Pos)
    requires Bookkeeping(s, spawn) && Live(s, u) && |s.conns[u].todo| > 0
    ensures Bookkeeping(AfterWriteDirect(s, u), spawn)
  {
    hide DistinctIds;
  }

  lemma DrainBooks(s: System, u: Uuid, spawn: Pos)
    requires Bookkeeping(s, spawn) && Live(s, u) && |s.players[u].out| > 0
    ensures Bookkeeping(AfterDrain(s, u), spawn)
  {}

  lemma TurnBooks(s: System, u: Uuid, p: Packet, spawn: Pos)
    requires Bookkeeping(s, spawn) && Live(s, u)
    ensures Bookkeeping(AfterTurn(s, u, p), spawn)
  {
    SentBooks(s, Some(u), [p], spawn);
  }

  lemma AnnounceBooks(s: System, u: Uuid, spawn: Pos)
    requires Bookkeeping(s, spawn) && Live(s, u) && s.conns[u].todo == []
    ensures Bookkeeping(AfterAnnounce(s, u, spawn), spawn)
  {
    hide JoinFrames, Sent, DistinctIds;
    SentBooks(s, Some(u), JoinFrames(u, s.players[u].entityId, spawn), spawn);
  }

  lemma PublishBooks(s: System, u: Uuid, spawn: Pos)
    requires Bookkeeping(s, spawn) && Live(s, u) && s.conns[u].announced && s.conns[u].pending.Some?
    ensures Bookkeeping(AfterPublish(s, u), spawn)
  {
    hide Sent, DistinctIds;
    SentBooks(s, Some(u), [SyncPosition(s.players[u].entityId, s.conns[u].pending.value)], spawn);
  }

  lemma RecordBooks(s: System, u: Uuid, at: Pos, look: Option<Facing>, spawn: Pos)
    requires Bookkeeping(s, spawn) && Live(s, u) && s.conns[u].announced
    ensures Bookkeeping(AfterRecord(s, u, at, look), spawn)
  {}

  lemma FaceBooks(s: System, u: Uuid, look: Facing, spawn: Pos)
    requires Bookkeeping(s, spawn) && Live(s, u)
    ensures Bookkeeping(AfterFace(s, u, look), spawn)
  {}

  lemma BooksKept(s: System, step: Step, spawn: Pos)
    requires Bookkeeping(s, spawn) && Enabled(s, step, spawn)
    ensures Bookkeeping(Next(s, step, spawn), spawn)
  {
    hide AfterJoin, AfterWriteDirect, AfterWriteOther, AfterAnnounce, AfterDrain, AfterRecord, AfterFace, AfterPublish,
         AfterTurn, AfterTick, AfterLeave;
    match step
    case Join(u, existing) => JoinBooks(s, u, existing, spawn);
    case WriteDirect(u) => WriteDirectBooks(s, u, spawn);
    case WriteOther(u) => WriteOtherBooks(s, u, spawn);
    case Announce(u) => AnnounceBooks(s, u, spawn);
    case Drain(u) => DrainBooks(s, u, spawn);
    case Record(u, at, look) => RecordBooks(s, u, at, look, spawn);
    case Face(u, look) => FaceBooks(s, u, look, spawn);
    case Publish(u) =>
      assert Sound(s.players[u], s.conns[u], s.nextId, spawn);
      PublishBooks(s, u, spawn);
    case Turn(u, p) => TurnBooks(s, u, p, spawn);
    case Tick(mobs) => TickBooks(s, mobs, spawn);
    case Leave(u) => LeaveBooks(s, u, spawn);
  }

  lemma TickBooks(s: System, mobs: seq<Mob>, spawn: Pos)
    requires Bookkeeping(s, spawn) && DistinctMobs(mobs) && forall m :: m in mobs ==> m.id >= MOB_ID_BASE
    ensures Bookkeeping(AfterTick(s, mobs), spawn)
  {
    hide TickFrames, InView, Shown;
  }

  lemma ClientKept(s: System, step: Step, spawn: Pos, c: Uuid)
    requires Bookkeeping(s, spawn) && Enabled(s, step, spawn)
    requires c in s.players ==> ClientInv(s, c)
    requires Live(Next(s, step, spawn), c)
    ensures ClientInv(Next(s, step, spawn), c)
  {
    hide ClientInv, JoinFrames, LeaveFrames, TickFrames, VisibleIds, IsSnapshot, SnapshotIds;
    match step
    case Join(u, existing) =>
      if c == u {
        JoinSelf(s, u, existing, spawn);
      } else {
        JoinOther(s, u, existing, spawn, c);
      }
    case WriteDirect(u) => WriteDirectClient(s, u, c);
    case WriteOther(u) => WriteOtherClient(s, u, c);
    case Announce(u) => AnnounceClient(s, u, spawn, c);
    case Drain(u) => DrainClient(s, u, c);
    case Record(u, at, look) => RecordClient(s, u, at, look, c);
    case Face(u, look) => FaceClient(s, u, look, c);
    case Publish(u) => PublishClient(s, u, c);
    case Turn(u, p) => TurnClient(s, u, p, c);
    case Tick(mobs) =>
      if |mobs| > 0 {
        TickClient(s, mobs, spawn, c);
      } else {
        assert Next(s, step, spawn) == s;
      }
    case Leave(u) => LeaveClient(s, u, spawn, c);
  }

  /** Every step of every connection, and every mob tick, keeps the invariant for every client. */
  lemma StepKeeps(s: System, step: Step, spawn: Pos)
    requires Inv(s, spawn) && Enabled(s, step, spawn)
    ensures Inv(Next(s, step, spawn), spawn)
  {
    hide Next, Enabled, ClientInv;
    BooksKept(s, step, spawn);
    forall c | c in Next(s, step, spawn).players
      ensures ClientInv(Next(s, step, spawn), c)
    {
      ClientKept(s, step, spawn, c);
    }
  }

  lemma {:induction false} RunKeeps(steps: seq<Step>, spawn: Pos)
    requires Run(steps, spawn).Some?
    ensures Inv(Run(steps, spawn).value, spawn)
    decreases |steps|
  {
    hide Next, Enabled;
    if |steps| > 0 {
      RunKeeps(steps[..|steps| - 1], spawn);
      StepKeeps(Run(steps[..|steps| - 1], spawn).value, steps[|steps| - 1], spawn);
    }
  }

  /** In every run, the packets written to a client so far are in a proper order, packet by packet. */
  lemma WireIsLegal(steps: seq<Step>, spawn: Pos, c: Uuid)
    requires Run(steps, spawn).Some? && Live(Run(steps, spawn).value, c)
    ensures Replay(FRESH_CLIENT, Run(steps, spawn).value.conns[c].wire).Some?
    ensures InOrder(Run(steps, spawn).value.conns[c].wire)
  {
    hide Replay, Run, Mirrors, StayGone, InOrder;
    RunKeeps(steps, spawn);
    var s := Run(steps, spawn).value;
    assert ClientInv(s, c);
    assert Stream(s, c) == s.conns[c].wire + (s.conns[c].todo + s.players[c].out);
    ReplayAppend(FRESH_CLIENT, s.conns[c].wire, s.conns[c].todo + s.players[c].out);
    ReplaysIffInOrder(s.conns[c].wire);
  }

  // ------------------------------------------------- players a client never met

  /** A client that has received its whole stream holds another player's entity exactly when it was told of
      that player: by its own snapshot or by the announcement. So a leave removes an entity the client holds
      exactly then, and an announcement spawns a second time exactly what was in the snapshot. */
  lemma KnownIffTold(s: System, spawn: Pos, u: Uuid, c: Uuid)
    requires Inv(s, spawn) && Live(s, u) && Live(s, c) && u != c
    ensures s.players[u].entityId in Replay(FRESH_CLIENT, Stream(s, c)).value.entities
       <==> s.conns[u].announced || s.players[u].entityId in s.conns[c].snapshot
  {
    hide Replay, Deliver, Stream;
    var k, id := Replay(FRESH_CLIENT, Stream(s, c)).value, s.players[u].entityId;
    assert ClientInv(s, c);
    assert Sound(s.players[u], s.conns[u], s.nextId, spawn) && Sound(s.players[c], s.conns[c], s.nextId, spawn);
    if id in k.entities {
      assert id !in s.players[c].visible;
      assert ToldOf(s, c, k.entities[id].uuid) && s.players[k.entities[id].uuid].entityId == id;
    }
    if s.conns[u].announced || id in s.conns[c].snapshot {
      assert ToldOf(s, c, u);
      assert SeesPlayer(s, k, u);
    }
  }

  /** Two players join, and the second one's connection fails while it is being introduced. */
  function FailedJoin(p: Pos): seq<Step> { [Join(0, []), Join(1, [Existing(0, 0, p)]), Leave(1)] }

  ghost function OneJoined(spawn: Pos): System {
    System(1,
           map[0 := SharedPlayer(0, spawn, LEVEL, {}, [])],
           map[0 := Conn([], [PlayerInfo(0)], {}, false, None, map[])])
  }

  lemma FirstJoins(spawn: Pos)
    ensures Enabled(INITIAL, Join(0, []), spawn) && AfterJoin(INITIAL, 0, [], spawn) == OneJoined(spawn)
  {
    assert [PlayerInfo(0)] + [] == [PlayerInfo(0)];
    assert SnapshotIds([]) == {};
    assert map[][0 := SharedPlayer(0, spawn, LEVEL, {}, [])] == map[0 := SharedPlayer(0, spawn, LEVEL, {}, [])];
    assert AfterJoin(INITIAL, 0, [], spawn).conns == OneJoined(spawn).conns;
  }

  lemma SecondJoins(spawn: Pos)
    ensures Enabled(OneJoined(spawn), Join(1, [Existing(0, 0, spawn)]), spawn)
    ensures var s := AfterJoin(OneJoined(spawn), 1, [Existing(0, 0, spawn)], spawn);
      && s.players == map[0 := SharedPlayer(0, spawn, LEVEL, {}, []), 1 := SharedPlayer(1, spawn, LEVEL, {}, [])]
      && s.conns.Keys == {0, 1} && s.conns[0] == OneJoined(spawn).conns[0]
  {
    hide Introduction, SnapshotIds;
    var existing := [Existing(0, 0, spawn)];
    assert existing[0].uuid == 0;
  }

  /** The first client is told to remove an entity it was never sent. */
  lemma StrangerIsRemoved(spawn: Pos)
    ensures Run(FailedJoin(spawn), spawn).Some?
    ensures var s := Run(FailedJoin(spawn), spawn).value;
      Live(s, 0) && Stream(s, 0) == [PlayerInfo(0), PlayerRemove(1), RemoveEntities({1})]
  {
    hide Run, Enabled, AfterJoin, OneJoined;
    var existing := [Existing(0, 0, spawn)];
    var s1, s2 := OneJoined(spawn), AfterJoin(OneJoined(spawn), 1, existing, spawn);
    assert [] + [Join(0, [])] == [Join(0, [])];
    assert [Join(0, [])] + [Join(1, existing)] == [Join(0, []), Join(1, existing)];
    assert FailedJoin(spawn) == [Join(0, []), Join(1, existing)] + [Leave(1)];
    FirstJoins(spawn);
    SecondJoins(spawn);
    RunNothing(spawn);
    RunMore([], Join(0, []), spawn, INITIAL, s1);
    RunMore([Join(0, [])], Join(1, existing), spawn, s1, s2);
    LastLeaves(s2, spawn);
    RunMore([Join(0, []), Join(1, existing)], Leave(1), spawn, s2, AfterLeave(s2, 1));
  }

  lemma RunNothing(spawn: Pos)
    ensures Run([], spawn) == Some(INITIAL)
  {}

  lemma LastLeaves(s: System, spawn: Pos)
    requires s.players == map[0 := SharedPlayer(0, spawn, LEVEL, {}, []), 1 := SharedPlayer(1, spawn, LEVEL, {}, [])]
    requires s.conns.Keys == {0, 1} && s.conns[0] == OneJoined(spawn).conns[0]
    ensures Enabled(s, Leave(1), spawn) && Live(AfterLeave(s, 1), 0)
    ensures Stream(AfterLeave(s, 1), 0) == [PlayerInfo(0), PlayerRemove(1), RemoveEntities({1})]
  {
    var s' := AfterLeave(s, 1);
    assert 0 in s.players - {1} && s'.players[0].out == [] + LeaveFrames(1, 1);
    assert [] + [PlayerInfo(0)] + ([] + LeaveFrames(1, 1)) == [PlayerInfo(0), PlayerRemove(1), RemoveEntities({1})];
  }

  lemma RunMore(steps: seq<Step>, step: Step, spawn: Pos, s: System, s': System)
    requires Run(steps, spawn) == Some(s) && Enabled(s, step, spawn) && s' == Next(s, step, spawn)
    ensures Run(steps + [step], spawn) == Some(s')
  {
    hide Enabled, Next;
    assert (steps + [step])[..|steps|] == steps && (steps + [step])[|steps|] == step;
  }

  /** In every run, a client that has been sent everything knows every announced player that is
      registered, at its last published position, and no player who left; and the mobs it holds are exactly
      `visible_entities`, each where it was at the last tick that showed it first or saw it move. */
  lemma DrainedClientIsUpToDate(steps: seq<Step>, spawn: Pos, c: Uuid)
    requires Run(steps, spawn).Some? && Live(Run(steps, spawn).value, c)
    requires Run(steps, spawn).value.conns[c].todo == [] && Run(steps, spawn).value.players[c].out == []
    ensures Replay(FRESH_CLIENT, Run(steps, spawn).value.conns[c].wire).Some?
    ensures var s := Run(steps, spawn).value;
            var k := Replay(FRESH_CLIENT, s.conns[c].wire).value;
            && !k.bundle
            && (forall p :: Live(s, p) && p != c && s.conns[p].announced ==> p in k.tab && SeesPlayer(s, k, p))
            && (forall p :: p in k.tab ==> p in s.players)
            && (forall id :: id in k.entities && k.entities[id].PlayerSeen? ==>
                  k.entities[id].uuid in s.players && s.players[k.entities[id].uuid].entityId == id)
            && (forall id :: (id in k.entities && k.entities[id].MobSeen?) <==> id in s.players[c].visible)
            && s.conns[c].mobs.Keys == s.players[c].visible
            && (forall id :: id in s.players[c].visible ==> k.entities[id] == MobSeen(s.conns[c].mobs[id]))
  {
    hide Replay, Run, Deliver;
    RunKeeps(steps, spawn);
    var s := Run(steps, spawn).value;
    assert ClientInv(s, c);
    assert Stream(s, c) == s.conns[c].wire;
    forall p | Live(s, p) && p != c && s.conns[p].announced
      ensures ToldOf(s, c, p)
    {
    }
  }

  /** Why player ids have to stay below `MOB_ID_BASE`: a client that holds exactly the mobs
      `visible` still holds exactly them after a player's leave frames if and only if the
      player's id is not one of theirs. */
  lemma LeaveKeepsMobsIff(k: Client, visible: set<int>, u: Uuid, id: int)
    requires forall m :: (m in k.entities && k.entities[m].MobSeen?) <==> m in visible
    requires id in k.entities && id !in k.gone
    ensures Replay(k, LeaveFrames(u, id)).Some?
    ensures var k' := Replay(k, LeaveFrames(u, id)).value;
            (forall m :: (m in k'.entities && k'.entities[m].MobSeen?) <==> m in visible) <==> id !in visible
  {
    hide Replay;
    var k1 := k.(tab := k.tab - {u});
    assert LeaveFrames(u, id) == [PlayerRemove(u)] + [RemoveEntities({id})];
    ReplayCons(k, PlayerRemove(u), [RemoveEntities({id})]);
    ReplayOne(k1, RemoveEntities({id}));
    var k' := k1.(entities := k1.entities - {id}, gone := k1.gone + PlayerIds({id}));
    assert id !in k'.entities;
  }
}
