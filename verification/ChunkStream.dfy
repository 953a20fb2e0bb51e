/** Chunk streaming: which columns a client holds as its player walks
    (`visible_chunks`, `stream_chunks`, the initial batch of `run_play` and the centre tracking of
    `play_loop` in `loadstone-net/src/play.rs`). */
module ChunkStream {
  import opened Arith
  import opened Options
  import opened Play

  type Column = (int, int)

  datatype ViewPacket =
    | SetCenter(center: Column)
    | BatchStart
    | MapChunk(column: Column)
    | BatchFinished(size: nat)
    | Unload(column: Column)

  /** What a client holds: its announced centre, its columns, and the chunks counted in an open batch. */
  datatype View = View(center: Option<Column>, loaded: set<Column>, batch: Option<nat>)

  const FRESH_VIEW: View := View(None, {}, None)

  /** `None` when a packet breaks the protocol: a chunk outside a batch or already loaded, an unload
      of an absent column, or a batch whose declared size is not the number of its chunks. */
  function Receive(v: View, p: ViewPacket): Option<View> {
    match p
    case SetCenter(c) => Some(v.(center := Some(c)))
    case BatchStart => if v.batch.None? then Some(v.(batch := Some(0))) else None
    case MapChunk(c) =>
      if v.batch.Some? && c !in v.loaded
      then Some(v.(loaded := v.loaded + {c}, batch := Some(v.batch.value + 1)))
      else None
    case BatchFinished(n) => if v.batch == Some(n) then Some(v.(batch := None)) else None
    case Unload(c) => if c in v.loaded then Some(v.(loaded := v.loaded - {c})) else None
  }

  function ReceiveAll(v: View, packets: seq<ViewPacket>): Option<View>
    decreases |packets|
  {
    if |packets| == 0 then Some(v)
    else match Receive(v, packets[0])
      case None => None
      case Some(v') => ReceiveAll(v', packets[1..])
  }

  lemma {:induction false} ReceiveAppend(v: View, a: seq<ViewPacket>, b: seq<ViewPacket>)
    requires ReceiveAll(v, a).Some?
    ensures ReceiveAll(v, a + b) == ReceiveAll(ReceiveAll(v, a).value, b)
    decreases |a|
  {
    hide Receive;
    if |a| == 0 {
      assert a + b == b;
    } else {
      assert (a + b)[1..] == a[1..] + b;
      ReceiveAppend(Receive(v, a[0]).value, a[1..], b);
    }
  }

  // ----------------------------------------------------------------- the square

  predicate InSquare(c: Column, center: Column, radius: int) {
    -radius <= c.0 - center.0 <= radius && -radius <= c.1 - center.1 <= radius
  }

  ghost function Square(center: Column, radius: nat): (s: set<Column>)
    ensures forall c :: c in s <==> InSquare(c, center, radius)
  {
    set x, z | center.0 - radius <= x <= center.0 + radius && center.1 - radius <= z <= center.1 + radius :: (x, z)
  }

  ghost predicate Distinct<T(!new)>(s: seq<T>) { forall i, j :: 0 <= i < j < |s| ==> s[i] != s[j] }

  /** `visible_chunks`: every column of the square, once. */
  method VisibleChunks(center: Column, radius: nat) returns (chunks: seq<Column>)
    ensures Distinct(chunks)
    ensures forall c :: c in chunks <==> InSquare(c, center, radius)
    ensures |chunks| == (radius * 2 + 1) * (radius * 2 + 1)
  {
    var width := radius * 2 + 1;
    var r: int := radius;
    chunks := [];
    for dz := -r to r + 1
      invariant Distinct(chunks)
      invariant |chunks| == (dz + radius) * width
      invariant forall c :: c in chunks <==> InSquare(c, center, radius) && c.1 < center.1 + dz
    {
      for dx := -r to r + 1
        invariant Distinct(chunks)
        invariant |chunks| == (dz + radius) * width + (dx + radius)
        invariant forall c :: c in chunks <==>
          InSquare(c, center, radius) && (c.1 < center.1 + dz || (c.1 == center.1 + dz && c.0 < center.0 + dx))
      {
        chunks := Pushed(chunks, (center.0 + dx, center.1 + dz));
      }
      MulAdd(width, dz + radius, 1);
    }
  }

  function Pushed<T(!new)>(s: seq<T>, x: T): (r: seq<T>)
    requires x !in s
    ensures Distinct(s) ==> Distinct(r)
    ensures forall y :: y in r <==> y in s || y == x
    ensures |r| == |s| + 1
  {
    s + [x]
  }

  /** The mobs a tick makes visible to a player are exactly those standing on the columns streamed to it:
      the two computations of the view agree. */
  lemma VisibleMobsStandOnLoadedColumns(mobs: seq<Mob>, at: Pos, id: int)
    ensures id in VisibleIds(mobs, at)
       <==> exists m :: m in mobs && m.id == id && ChunkOf(m.pos) in Square(ChunkOf(at), VIEW_DISTANCE)
  {
    hide ChunkOf;
    forall m: Mob
      ensures InView(m, at) <==> ChunkOf(m.pos) in Square(ChunkOf(at), VIEW_DISTANCE)
    {
      assert ChunkOf(m.pos) in Square(ChunkOf(at), VIEW_DISTANCE)
         <==> InSquare(ChunkOf(m.pos), ChunkOf(at), VIEW_DISTANCE);
    }
  }

  // ----------------------------------------------------------------- one update

  /** One call of `stream_chunks`: the new centre, the columns loaded and the columns dropped, in order. */
  datatype Update = Update(center: Column, loads: seq<Column>, unloads: seq<Column>)

  function Loads(columns: seq<Column>): (r: seq<ViewPacket>)
    ensures |r| == |columns|
  {
    seq(|columns|, i requires 0 <= i < |columns| => MapChunk(columns[i]))
  }

  function Unloads(columns: seq<Column>): (r: seq<ViewPacket>)
    ensures |r| == |columns|
  {
    seq(|columns|, i requires 0 <= i < |columns| => Unload(columns[i]))
  }

  /** The packets of an update; a batch is opened only when something is loaded. */
  function Packets(u: Update): seq<ViewPacket> {
    [SetCenter(u.center)]
    + (if |u.loads| == 0 then [] else [BatchStart] + Loads(u.loads) + [BatchFinished(|u.loads|)])
    + Unloads(u.unloads)
  }

  /** The update takes a client that holds `loaded` to the square around the new centre. */
  ghost predicate Fits(u: Update, loaded: set<Column>, radius: nat) {
    && Distinct(u.loads)
    && Distinct(u.unloads)
    && (forall c :: c in u.loads <==> InSquare(c, u.center, radius) && c !in loaded)
    && (forall c :: c in u.unloads <==> c in loaded && !InSquare(c, u.center, radius))
  }

  lemma {:induction false} ReceiveLoads(v: View, columns: seq<Column>)
    requires v.batch.Some? && Distinct(columns) && forall c :: c in columns ==> c !in v.loaded
    ensures ReceiveAll(v, Loads(columns))
         == Some(v.(loaded := v.loaded + (set c | c in columns), batch := Some(v.batch.value + |columns|)))
    decreases |columns|
  {
    if |columns| == 0 {
      assert v.loaded + (set c | c in columns) == v.loaded;
    } else {
      assert Loads(columns)[1..] == Loads(columns[1..]);
      var v' := v.(loaded := v.loaded + {columns[0]}, batch := Some(v.batch.value + 1));
      assert forall c :: c in columns[1..] ==> c in columns;
      ReceiveLoads(v', columns[1..]);
      assert v'.loaded + (set c | c in columns[1..]) == v.loaded + (set c | c in columns);
    }
  }

  lemma {:induction false} ReceiveUnloads(v: View, columns: seq<Column>)
    requires Distinct(columns) && forall c :: c in columns ==> c in v.loaded
    ensures ReceiveAll(v, Unloads(columns)) == Some(v.(loaded := v.loaded - (set c | c in columns)))
    decreases |columns|
  {
    if |columns| == 0 {
      assert v.loaded - (set c | c in columns) == v.loaded;
    } else {
      assert Unloads(columns)[1..] == Unloads(columns[1..]);
      var v' := v.(loaded := v.loaded - {columns[0]});
      assert forall c :: c in columns[1..] ==> c in columns;
      ReceiveUnloads(v', columns[1..]);
      assert v'.loaded - (set c | c in columns[1..]) == v.loaded - (set c | c in columns);
    }
  }

  lemma ReceiveSingle(v: View, p: ViewPacket)
    ensures ReceiveAll(v, [p]) == Receive(v, p)
  {
    assert [p][1..] == [];
  }

  lemma ReceiveBatch(v: View, columns: seq<Column>)
    requires v.batch.None? && Distinct(columns) && forall c :: c in columns ==> c !in v.loaded
    ensures ReceiveAll(v, [BatchStart] + Loads(columns) + [BatchFinished(|columns|)])
         == Some(v.(loaded := v.loaded + (set c | c in columns)))
  {
    var v1 := v.(batch := Some(0));
    ReceiveSingle(v, BatchStart);
    ReceiveLoads(v1, columns);
    ReceiveAppend(v, [BatchStart], Loads(columns));
    var v2 := v1.(loaded := v.loaded + (set c | c in columns), batch := Some(|columns|));
    ReceiveSingle(v2, BatchFinished(|columns|));
    ReceiveAppend(v, [BatchStart] + Loads(columns), [BatchFinished(|columns|)]);
  }

  /** Replaying an update leaves the client with exactly the square around the new centre. */
  lemma UpdateReplays(v: View, u: Update, radius: nat)
    requires v.batch.None? && Fits(u, v.loaded, radius)
    ensures ReceiveAll(v, Packets(u)) == Some(View(Some(u.center), Square(u.center, radius), None))
  {
    hide ReceiveAll, Receive, Loads, Unloads, Distinct;
    var v1 := v.(center := Some(u.center));
    var loads := if |u.loads| == 0 then [] else [BatchStart] + Loads(u.loads) + [BatchFinished(|u.loads|)];
    ReceiveCenter(v, u.center);
    var v2 := v1.(loaded := v.loaded + (set c | c in u.loads));
    if |u.loads| == 0 {
      assert v2.loaded == v1.loaded;
      ReceiveNothing(v1);
    } else {
      ReceiveBatch(v1, u.loads);
    }
    ReceiveAppend(v, [SetCenter(u.center)], loads);
    ReceiveUnloads(v2, u.unloads);
    ReceiveAppend(v, [SetCenter(u.center)] + loads, Unloads(u.unloads));
    assert v2.loaded - (set c | c in u.unloads) == Square(u.center, radius);
  }

  lemma ReceiveCenter(v: View, c: Column)
    ensures ReceiveAll(v, [SetCenter(c)]) == Some(v.(center := Some(c)))
  {
    ReceiveSingle(v, SetCenter(c));
  }

  lemma ReceiveNothing(v: View)
    ensures ReceiveAll(v, []) == Some(v)
  {}

  /** `stream_chunks`: the packets it writes are those of a fitting update, and the new view is the square. */
  method StreamChunks(loaded: set<Column>, center: Column, radius: nat)
    returns (packets: seq<ViewPacket>, viewSet: set<Column>, ghost u: Update)
    ensures packets == Packets(u) && u.center == center && Fits(u, loaded, radius)
    ensures viewSet == Square(center, radius)
  {
    packets := [SetCenter(center)];
    var view := VisibleChunks(center, radius);
    var toLoad: seq<Column> := [];
    for i := 0 to |view|
      invariant Distinct(toLoad)
      invariant forall c :: c in toLoad <==> c in view[..i] && c !in loaded
    {
      assert view[..i + 1] == view[..i] + [view[i]];
      if view[i] !in loaded {
        toLoad := Pushed(toLoad, view[i]);
      }
    }
    assert view[..|view|] == view;
    ghost var header := packets;
    if |toLoad| > 0 {
      packets := packets + [BatchStart];
      for i := 0 to |toLoad|
        invariant packets == header + [BatchStart] + Loads(toLoad)[..i]
      {
        assert Loads(toLoad)[..i + 1] == Loads(toLoad)[..i] + [MapChunk(toLoad[i])];
        packets := packets + [MapChunk(toLoad[i])];
      }
      assert Loads(toLoad)[..|toLoad|] == Loads(toLoad);
      packets := packets + [BatchFinished(|toLoad|)];
    }
    viewSet := set c | c in view;
    ghost var unloads: seq<Column> := [];
    ghost var batch := packets;
    var todo := loaded;
    while todo != {}
      invariant todo <= loaded && Distinct(unloads)
      invariant forall c :: c in unloads <==> c in loaded && c !in todo && c !in viewSet
      invariant packets == batch + Unloads(unloads)
      decreases todo
    {
      var c :| c in todo;
      todo := todo - {c};
      if c !in viewSet {
        assert Unloads(Pushed(unloads, c)) == Unloads(unloads) + [Unload(c)];
        packets := packets + [Unload(c)];
        unloads := Pushed(unloads, c);
      }
    }
    u := Update(center, toLoad, unloads);
    assert viewSet == Square(center, radius);
  }

  // ------------------------------------------------------------------- whole walks

  /** The columns a connection believes loaded after some updates. */
  ghost function After(updates: seq<Update>, radius: nat): set<Column> {
    if |updates| == 0 then {} else Square(updates[|updates| - 1].center, radius)
  }

  /** A walk: the first update is the initial batch, each later one starts from the view before it. */
  ghost predicate IsWalk(updates: seq<Update>, radius: nat) {
    forall k :: 0 <= k < |updates| ==> Fits(updates[k], After(updates[..k], radius), radius)
  }

  lemma WalkGrows(updates: seq<Update>, u: Update, radius: nat)
    requires IsWalk(updates, radius) && Fits(u, After(updates, radius), radius)
    ensures IsWalk(updates + [u], radius)
  {
    hide Fits, After;
    var longer := updates + [u];
    forall k | 0 <= k < |longer|
      ensures Fits(longer[k], After(longer[..k], radius), radius)
    {
      if k < |updates| {
        assert longer[..k] == updates[..k] && longer[k] == updates[k];
      } else {
        assert longer[..k] == updates;
      }
    }
  }

  function WalkPackets(updates: seq<Update>): seq<ViewPacket>
    decreases |updates|
  {
    if |updates| == 0 then [] else WalkPackets(updates[..|updates| - 1]) + Packets(updates[|updates| - 1])
  }

  /** For every walk and every view radius, replaying all the packets is legal (nothing loaded twice,
      nothing absent unloaded, every batch size true) and leaves exactly the square around the last
      announced centre. */
  lemma {:induction false} WalkReplays(updates: seq<Update>, radius: nat)
    requires IsWalk(updates, radius)
    ensures ReceiveAll(FRESH_VIEW, WalkPackets(updates))
         == Some(if |updates| == 0 then FRESH_VIEW
                 else View(Some(updates[|updates| - 1].center), Square(updates[|updates| - 1].center, radius), None))
    decreases |updates|
  {
    hide ReceiveAll, Packets, Square, Fits;
    if |updates| == 0 {
      ReceiveNothing(FRESH_VIEW);
    } else {
      var init, last := updates[..|updates| - 1], updates[|updates| - 1];
      forall k | 0 <= k < |init|
        ensures Fits(init[k], After(init[..k], radius), radius)
      {
        assert init[..k] == updates[..k];
        assert Fits(updates[k], After(updates[..k], radius), radius);
      }
      WalkReplays(init, radius);
      var v := ReceiveAll(FRESH_VIEW, WalkPackets(init)).value;
      assert Fits(updates[|init|], After(updates[..|init|], radius), radius);
      UpdateReplays(v, last, radius);
      ReceiveAppend(FRESH_VIEW, WalkPackets(init), Packets(last));
    }
  }

  /** The streaming half of one connection: `loaded_chunks`, `center` and what was written. */
  class Streamer {
    const radius: nat
    var loaded: set<Column>
    var center: Column
    var wire: seq<ViewPacket>
    ghost var updates: seq<Update>

    ghost predicate Valid()
      reads this
    {
      && |updates| > 0
      && IsWalk(updates, radius)
      && wire == WalkPackets(updates)
      && center == updates[|updates| - 1].center
      && loaded == Square(center, radius)
    }

    /** The initial batch around the spawn column. */
    constructor (spawn: Pos, radius: nat)
      ensures Valid() && center == ChunkOf(spawn) && this.radius == radius
      ensures ReceiveAll(FRESH_VIEW, wire) == Some(View(Some(center), Square(center, radius), None))
    {
      var start := ChunkOf(spawn);
      var packets, viewSet;
      ghost var u;
      packets, viewSet, u := StreamChunks({}, start, radius);
      this.radius := radius;
      loaded, center, wire, updates := viewSet, start, packets, [u];
      new;
      assert updates[..0] == [];
      assert WalkPackets(updates[..0]) == [];
      WalkReplays(updates, radius);
    }

    /** A position update in `play_loop`: streams only when the player crossed a chunk border. */
    method MoveTo(pos: Pos)
      requires Valid()
      modifies this
      ensures Valid() && center == ChunkOf(pos)
      ensures center == old(center) ==> wire == old(wire)
      ensures old(wire) <= wire
      ensures ReceiveAll(FRESH_VIEW, wire) == Some(View(Some(center), Square(center, radius), None))
    {
      hide Packets, Fits, ReceiveAll, Square, IsWalk;
      var newCenter := ChunkOf(pos);
      if newCenter != center {
        var packets, viewSet;
        ghost var u;
        packets, viewSet, u := StreamChunks(loaded, newCenter, radius);
        ghost var before := updates;
        loaded, center, wire, updates := viewSet, newCenter, wire + packets, updates + [u];
        assert updates[..|updates| - 1] == before;
        WalkGrows(before, u, radius);
      }
      WalkReplays(updates, radius);
    }
  }
}
