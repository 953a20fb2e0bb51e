/** What a proper order of packets is, said of the packets alone: the partner of replaying them. */
module PacketOrder {
  import opened EntityIds
  import opened Play
  import opened PlayProtocol

  predicate Spawns(p: Packet, id: int) { (p.SpawnPlayer? || p.SpawnMob?) && p.id == id }

  predicate Removes(p: Packet, id: int) { p.RemoveEntities? && id in p.ids }

  /** Packet `i` spawned `id`, and none after it removed it. */
  ghost predicate SpawnedAt(sent: seq<Packet>, id: int, i: int) {
    0 <= i < |sent| && Spawns(sent[i], id) && forall k :: i < k < |sent| ==> !Removes(sent[k], id)
  }

  ghost predicate Present(sent: seq<Packet>, id: int) { exists i :: SpawnedAt(sent, id, i) }

  ghost predicate Departed(sent: seq<Packet>, id: int) {
    id < MOB_ID_BASE && exists i :: 0 <= i < |sent| && Removes(sent[i], id)
  }

  /** Packet `i` put `u` on the tab list, and none after it took it off. */
  ghost predicate ListedAt(sent: seq<Packet>, u: Uuid, i: int) {
    0 <= i < |sent| && sent[i] == PlayerInfo(u) && forall k :: i < k < |sent| ==> sent[k] != PlayerRemove(u)
  }

  ghost predicate Listed(sent: seq<Packet>, u: Uuid) { exists i :: ListedAt(sent, u, i) }

  function Delimiters(sent: seq<Packet>): nat {
    if |sent| == 0 then 0
    else Delimiters(sent[..|sent| - 1]) + if sent[|sent| - 1].Delimiter? then 1 else 0
  }

  /** An odd number of delimiters: the last one opened a bundle. */
  predicate InBundle(sent: seq<Packet>) { Delimiters(sent) % 2 == 1 }

  /** What may follow the packets sent so far. A player is spawned only inside a bundle and while on the tab list, a
      mob only while absent, nothing is mentioned unless present, no mob is removed unless present, and nothing at
      all is said about a player's id after its removal. */
  ghost predicate MayFollow(sent: seq<Packet>, p: Packet) {
    match p
    case SpawnPlayer(id, u, _) => InBundle(sent) && Listed(sent, u) && !Departed(sent, id)
    case SpawnMob(id, _) => !Present(sent, id) && !Departed(sent, id)
    case Metadata(id) => Present(sent, id) && !Departed(sent, id)
    case Look(id) => Present(sent, id) && !Departed(sent, id)
    case HeadRotation(id) => Present(sent, id) && !Departed(sent, id)
    case SyncPosition(id, _) => Present(sent, id) && !Departed(sent, id)
    case RemoveEntities(ids) =>
      forall id :: id in ids ==> !Departed(sent, id) && (id >= MOB_ID_BASE ==> Present(sent, id))
    case _ => true
  }

  ghost predicate InOrder(packets: seq<Packet>) {
    forall j :: 0 <= j < |packets| ==> MayFollow(packets[..j], packets[j])
  }

  // ------------------------------------------------------ one more packet

  lemma PresentSnoc(sent: seq<Packet>, p: Packet, id: int)
    ensures Present(sent + [p], id) <==> Spawns(p, id) || (Present(sent, id) && !Removes(p, id))
  {
    var longer := sent + [p];
    assert longer[|sent|] == p;
    if Spawns(p, id) {
      assert SpawnedAt(longer, id, |sent|);
    }
    if i :| SpawnedAt(sent, id, i) {
      assert !Removes(p, id) ==> SpawnedAt(longer, id, i);
    }
    if i :| SpawnedAt(longer, id, i) {
      if i < |sent| {
        assert forall k :: i < k < |sent| ==> longer[k] == sent[k];
        assert SpawnedAt(sent, id, i);
      }
    }
  }

  lemma DepartedSnoc(sent: seq<Packet>, p: Packet, id: int)
    ensures Departed(sent + [p], id) <==> Departed(sent, id) || (id < MOB_ID_BASE && Removes(p, id))
  {
    var longer := sent + [p];
    assert longer[|sent|] == p;
    if i :| 0 <= i < |sent| && Removes(sent[i], id) {
      assert longer[i] == sent[i];
    }
  }

  lemma ListedSnoc(sent: seq<Packet>, p: Packet, u: Uuid)
    ensures Listed(sent + [p], u) <==> p == PlayerInfo(u) || (Listed(sent, u) && p != PlayerRemove(u))
  {
    var longer := sent + [p];
    assert longer[|sent|] == p;
    if p == PlayerInfo(u) {
      assert ListedAt(longer, u, |sent|);
    }
    if i :| ListedAt(sent, u, i) {
      assert p != PlayerRemove(u) ==> ListedAt(longer, u, i);
    }
    if i :| ListedAt(longer, u, i) {
      if i < |sent| {
        assert forall k :: i < k < |sent| ==> longer[k] == sent[k];
        assert ListedAt(sent, u, i);
      }
    }
  }

  lemma BundleSnoc(sent: seq<Packet>, p: Packet)
    ensures InBundle(sent + [p]) <==> (InBundle(sent) <==> !p.Delimiter?)
  {
    assert (sent + [p])[..|sent|] == sent;
  }

  lemma InOrderSnoc(sent: seq<Packet>, p: Packet)
    ensures InOrder(sent + [p]) <==> InOrder(sent) && MayFollow(sent, p)
  {
    hide MayFollow;
    var longer := sent + [p];
    assert longer[|sent|] == p && longer[..|sent|] == sent;
    assert forall j :: 0 <= j < |sent| ==> longer[j] == sent[j] && longer[..j] == sent[..j];
  }

  // ----------------------------------------------- replaying is keeping order

  /** The replayed client is what the order says it is. */
  ghost predicate Tracks(k: Client, sent: seq<Packet>) {
    && (forall id :: id in k.entities <==> Present(sent, id))
    && (forall id :: id in k.gone <==> Departed(sent, id))
    && (forall id :: id in k.gone ==> id !in k.entities)
    && (forall u :: u in k.tab <==> Listed(sent, u))
    && (k.bundle <==> InBundle(sent))
  }

  lemma DeliverTracks(k: Client, sent: seq<Packet>, p: Packet)
    requires Tracks(k, sent)
    ensures Deliver(k, p).Some? <==> MayFollow(sent, p)
    ensures Deliver(k, p).Some? ==> Tracks(Deliver(k, p).value, sent + [p])
  {
    hide Present, Departed, Listed, InBundle;
    BundleSnoc(sent, p);
    forall id
      ensures Present(sent + [p], id) <==> Spawns(p, id) || (Present(sent, id) && !Removes(p, id))
      ensures Departed(sent + [p], id) <==> Departed(sent, id) || (id < MOB_ID_BASE && Removes(p, id))
    {
      PresentSnoc(sent, p, id);
      DepartedSnoc(sent, p, id);
    }
    forall u
      ensures Listed(sent + [p], u) <==> p == PlayerInfo(u) || (Listed(sent, u) && p != PlayerRemove(u))
    {
      ListedSnoc(sent, p, u);
    }
  }

  lemma {:induction false} ReplayTracks(packets: seq<Packet>)
    ensures Replay(FRESH_CLIENT, packets).Some? <==> InOrder(packets)
    ensures Replay(FRESH_CLIENT, packets).Some? ==> Tracks(Replay(FRESH_CLIENT, packets).value, packets)
    decreases |packets|
  {
    hide Deliver, MayFollow;
    if |packets| > 0 {
      hide Replay, Tracks, InOrder;
      var init, last := packets[..|packets| - 1], packets[|packets| - 1];
      assert packets == init + [last];
      ReplayTracks(init);
      ReplayAppend(FRESH_CLIENT, init, [last]);
      InOrderSnoc(init, last);
      if Replay(FRESH_CLIENT, init).Some? {
        var k := Replay(FRESH_CLIENT, init).value;
        ReplayOne(k, last);
        DeliverTracks(k, init, last);
      }
    }
  }

  /** A client accepts a stream of packets exactly when each packet may follow those before it. */
  lemma ReplaysIffInOrder(packets: seq<Packet>)
    ensures Replay(FRESH_CLIENT, packets).Some? <==> InOrder(packets)
  {
    ReplayTracks(packets);
  }
}
