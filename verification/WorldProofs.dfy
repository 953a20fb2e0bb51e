/** The storage stack refines a map from coordinate to block: over any run of reads, edits, saves and
    restarts the world shows the last edit, or else the generator, and a restart goes back to the last save. */
module WorldProofs {
  import opened Machine
  import opened Compression
  import opened Chunk
  import opened ChunkSize
  import opened Terrain
  import opened Blocks
  import opened Heightmap
  import opened ChunkNbtProofs
  import opened Region
  import opened RegionProofs
  import opened Disk
  import opened World

  type Edits = map<(i32, i32, i32), u16>

  /** The reference: the edits in effect, and the edits of the last save. */
  datatype Reference = Reference(live: Edits, saved: Edits)

  /** The world and its directory. `stored` is what the files hold; `lost` are the cached positions whose records
      the last save wrote in vain. */
  datatype System = System(chunks: Columns, dirty: set<ChunkPos>, disk: Files, stored: Columns, lost: set<ChunkPos>)

  datatype Step =
    | Read(x: i32, z: i32)
    | Edit(x: i32, y: i32, z: i32, state: u16)
    | Save(columns: seq<Column>, lastUpdate: i64)
    | Restart

  /** What the reference shows: the last edit, or else the terrain; below the world there is air. */
  function Look(g: TerrainGenerator, edits: Edits, x: i32, y: i32, z: i32): u16 {
    if (x, y, z) in edits then edits[(x, y, z)]
    else if y >= MIN_Y then g.Block(x, y, z)
    else AIR
  }

  /** A save lists every cached chunk once, in some order, and stays within what a region header can count. */
  ghost predicate Enabled(z: Zlib, s: System, step: Step) {
    match step
    case Read(_, _) => true
    case Edit(_, _, _, _) => true
    case Save(columns, t) =>
      Lists(columns, s.chunks) && AllValid(columns) && WithinLimits(z, columns, t)
    case Restart => true
  }

  /** The cached columns whose records cannot be found again. */
  ghost function Lost(z: Zlib, lastUpdate: i64, chunks: Columns): set<ChunkPos>
    requires ValidColumns(chunks)
  {
    set p | p in chunks && !Recorded(z, chunks[p], lastUpdate)
  }

  /** What a step loses: only a save loses anything. */
  ghost function LostBy(z: Zlib, s: System, step: Step): set<ChunkPos>
    requires ValidColumns(s.chunks)
  {
    if step.Save? then Lost(z, step.lastUpdate, s.chunks) else {}
  }

  ghost function Next(z: Zlib, g: TerrainGenerator, s: System, step: Step): System
    requires ValidColumns(s.chunks) && Enabled(z, s, step)
  {
    match step
    case Read(x, z) => s.(chunks := Cached(g, s.chunks, PosOf(x, z)))
    case Edit(x, y, z, state) =>
      s.(chunks := Edited(g, s.chunks, x, y, z, state), dirty := s.dirty + {PosOf(x, z)})
    case Save(columns, t) =>
      s.(disk := WriteAll(z, s.disk, columns, t), dirty := {},
         stored := AfterSave(z, t, s.stored, s.chunks), lost := Lost(z, t, s.chunks))
    case Restart => s.(chunks := s.stored, dirty := {}, lost := {})
  }

  function PosAt(k: (i32, i32, i32)): ChunkPos { PosOf(k.0, k.2) }

  /** Edits as they are saved: a state outside the block table is stored as air, and edits to a column whose
      record is lost are not saved at all. */
  function StoredEdits(edits: Edits, lost: set<ChunkPos>): Edits {
    map k | k in edits && PosAt(k) !in lost :: Stored(edits[k])
  }

  function NextReference(r: Reference, step: Step, lost: set<ChunkPos>): Reference {
    match step
    case Read(_, _) => r
    case Edit(x, y, z, state) => if InRange(y) then r.(live := r.live[(x, y, z) := state]) else r
    case Save(_, _) => r.(saved := StoredEdits(r.live, lost))
    case Restart => r.(live := r.saved)
  }

  /** The cache over the generator shows exactly what the edits say. */
  ghost predicate ShowsEdits(g: TerrainGenerator, chunks: Columns, edits: Edits)
    requires ValidColumns(chunks)
  {
    forall x: i32, y: i32, z: i32 :: BlockIn(g, chunks, x, y, z) == Look(g, edits, x, y, z)
  }

  ghost predicate AllSupported(chunks: Columns)
    requires ValidColumns(chunks)
  {
    forall p :: p in chunks ==> OnlySupported(chunks[p])
  }

  /** A column that is neither marked nor lost reads the same from the files over the generator, as far as its
      states can be stored. */
  ghost predicate CleanColumnsAreStored(g: TerrainGenerator, s: System)
    requires ValidColumns(s.chunks) && ValidColumns(s.stored)
  {
    forall p :: p in s.chunks && p !in s.dirty && p !in s.lost ==>
      SameBlocks(Kept(s.chunks[p]), ColumnAt(g, s.stored, p))
  }

  ghost predicate Inv(z: Zlib, g: TerrainGenerator, s: System, r: Reference) {
    && ValidColumns(s.chunks) && ShowsEdits(g, s.chunks, r.live)
    && ValidColumns(s.stored) && AllSupported(s.stored) && ShowsEdits(g, s.stored, r.saved)
    && Holds(z, s.disk, s.stored)
    && s.stored.Keys <= s.chunks.Keys && s.lost !! s.stored.Keys
    && CleanColumnsAreStored(g, s)
  }

  // ---------------------------------------------------------------- the generator

  lemma GeneratedIsSupported(g: TerrainGenerator, pos: ChunkPos)
    ensures OnlySupported(Generated(g, pos))
  {
    hide Supported, NonAir, TerrainGenerator.SurfaceHeight;
    forall i, k | 0 <= i < SECTION_COUNT && 0 <= k < |Generated(g, pos).sections[i].states|
      ensures Supported(Generated(g, pos).sections[i].states[k])
    {
      SupportedStates(BlockAt(g, pos, i * SECTION_VOLUME + k));
    }
  }

  lemma GeneratedLooks(g: TerrainGenerator, x: i32, y: i32, z: i32)
    ensures Generated(g, PosOf(x, z)).Block(x, y, z) == Look(g, map[], x, y, z)
  {
    hide TerrainGenerator.Block, Generated;
    GeneratedBlock(g, PosOf(x, z), x, y, z);
  }

  /** The heightmap of a generated column is its surface. */
  lemma GeneratedHeights(g: TerrainGenerator, pos: ChunkPos, x: nat, z: nat)
    requires x < 16 && z < 16
    ensures Heights(Generated(g, pos))[z * 16 + x]
         == g.SurfaceHeight(pos.x * 16 + x, pos.z * 16 + z) + 1 - MIN_Y
  {
    hide Generated, Heights, Column.Block;
    var c := Generated(g, pos);
    var wx, wz := pos.x * 16 + x, pos.z * 16 + z;
    var h := g.SurfaceHeight(wx, wz) + 1 - MIN_Y;
    forall y | MIN_Y <= y < MIN_Y + WORLD_HEIGHT
      ensures c.Block(x, y, z) == g.Block(wx, y, wz)
    {
      GeneratedBlock(g, pos, wx, y, wz);
      SameLocal(c, x, z, wx, wz, y);
    }
    HeightMeaning(c, x, z, h);
  }

  /** Between -56 and 120 the surface is the rounded noise of the world's seed and column; beyond, the bound. */
  lemma SurfaceIsClampedNoise(g: TerrainGenerator, x: int, z: int)
    ensures var n, h := g.noise(g.seed, x, z), g.SurfaceHeight(x, z);
      (-56 <= n <= 120 ==> h == n) && (n < -56 ==> h == -56) && (n > 120 ==> h == 120)
  {}

  /** What a generated column is made of, told from the height of the column: bedrock at the bottom, grass on top,
      three layers of dirt under it, stone in between and air above. */
  lemma GeneratedLayers(g: TerrainGenerator, pos: ChunkPos, x: nat, z: nat, h: nat, y: int)
    requires x < 16 && z < 16 && IsHeight(Generated(g, pos), x, z, h) && MIN_Y <= y < MIN_Y + WORLD_HEIGHT
    ensures h >= 5 && MIN_Y + h - 1 == g.SurfaceHeight(pos.x * 16 + x, pos.z * 16 + z)
    ensures var block, top := Generated(g, pos).Block(x, y, z), MIN_Y + h - 1;
      && (block == BEDROCK <==> y == MIN_Y)
      && (block == GRASS_BLOCK <==> y == top)
      && (block == DIRT <==> top - 3 <= y < top)
      && (block == STONE <==> MIN_Y < y < top - 3)
      && (block == AIR <==> y > top)
  {
    hide Generated, Heights, Column.Block, IsHeight;
    var c := Generated(g, pos);
    GeneratedHeights(g, pos, x, z);
    HeightMeaning(c, x, z, h);
    GeneratedBlock(g, pos, pos.x * 16 + x, y, pos.z * 16 + z);
    SameLocal(c, x, z, pos.x * 16 + x, pos.z * 16 + z, y);
  }

  lemma SameLocal(c: Column, x: int, z: int, x': int, z': int, y: int)
    requires c.Valid() && x' % 16 == x % 16 && z' % 16 == z % 16
    ensures c.Block(x', y, z') == c.Block(x, y, z)
  {
    hide Section.Valid, Section.At;
  }

  // ---------------------------------------------------------------------- steps

  lemma ReadKeeps(z: Zlib, g: TerrainGenerator, s: System, r: Reference, x: i32, zz: i32)
    requires Inv(z, g, s, r)
    ensures Inv(z, g, Next(z, g, s, Read(x, zz)), r)
  {
    hide Supported, Generated, Holds, Column.Block, Section.Valid, Look, OnlySupported, Kept;
    var p, s' := PosOf(x, zz), Next(z, g, s, Read(x, zz));
    GeneratedIsSupported(g, p);
    KeptIsSameIff(Generated(g, p));
    forall x: i32, y: i32, z: i32
      ensures BlockIn(g, s'.chunks, x, y, z) == BlockIn(g, s.chunks, x, y, z)
    {}
    if p !in s.chunks {
      assert s'.chunks[p] == ColumnAt(g, s.stored, p);
    }
  }

  lemma EditedBlock(g: TerrainGenerator, chunks: Columns, x: i32, y: i32, z: i32, state: u16, x': i32, y': i32, z': i32)
    requires ValidColumns(chunks)
    ensures BlockIn(g, Edited(g, chunks, x, y, z, state), x', y', z')
         == if (x', y', z') == (x, y, z) && InRange(y) then state else BlockIn(g, chunks, x', y', z')
  {
    hide Generated, Column.Block, Column.Placed, Section.Valid;
    var c := ColumnAt(g, chunks, PosOf(x, z));
    PlacedThenBlock(c, x, y, z, state, x', y', z');
    assert x == x / 16 * 16 + x % 16 && x' == x' / 16 * 16 + x' % 16;
    assert z == z / 16 * 16 + z % 16 && z' == z' / 16 * 16 + z' % 16;
  }

  lemma EditedLook(g: TerrainGenerator, edits: Edits, x: i32, y: i32, z: i32, state: u16, x': i32, y': i32, z': i32)
    ensures Look(g, edits[(x, y, z) := state], x', y', z')
         == if (x', y', z') == (x, y, z) then state else Look(g, edits, x', y', z')
  {
    hide TerrainGenerator.Block;
  }

  lemma EditShows(g: TerrainGenerator, chunks: Columns, edits: Edits, x: i32, y: i32, z: i32, state: u16)
    requires ValidColumns(chunks) && ShowsEdits(g, chunks, edits)
    ensures ShowsEdits(g, Edited(g, chunks, x, y, z, state), if InRange(y) then edits[(x, y, z) := state] else edits)
  {
    hide Edited, BlockIn, Look;
    forall x': i32, y': i32, z': i32
      ensures BlockIn(g, Edited(g, chunks, x, y, z, state), x', y', z')
           == Look(g, if InRange(y) then edits[(x, y, z) := state] else edits, x', y', z')
    {
      EditedBlock(g, chunks, x, y, z, state, x', y', z');
      EditedLook(g, edits, x, y, z, state, x', y', z');
      assert BlockIn(g, chunks, x', y', z') == Look(g, edits, x', y', z');
    }
  }

  lemma EditKeeps(z: Zlib, g: TerrainGenerator, s: System, r: Reference, step: Step)
    requires Inv(z, g, s, r) && step.Edit? && Enabled(z, s, step)
    ensures Inv(z, g, Next(z, g, s, step), NextReference(r, step, {}))
  {
    hide Supported, Generated, Holds, Column.Block, Column.Placed, Section.Valid, ShowsEdits, OnlySupported, Kept;
    var Edit(x, y, zz, state) := step;
    EditShows(g, s.chunks, r.live, x, y, zz, state);
  }

  /** With everything stored also cached, what is on disk after a save is what is cached and not lost. */
  lemma SaveStoresCache(z: Zlib, t: i64, stored: Columns, chunks: Columns)
    requires ValidColumns(chunks) && stored.Keys <= chunks.Keys
    ensures var after := AfterSave(z, t, stored, chunks);
      && after.Keys == chunks.Keys - Lost(z, t, chunks)
      && (forall p :: p in after ==> after[p] == Kept(chunks[p]))
      && ValidColumns(after)
  {
    hide Kept, RegionOf, Touched, Recorded;
  }

  lemma KeptIsSupported(c: Column)
    requires c.Valid()
    ensures OnlySupported(Kept(c))
  {
    hide Supported, NonAir;
    AirIsStored();
  }

  /** Terrain can always be stored, so storing the view is storing the edits. */
  lemma StoredLook(g: TerrainGenerator, edits: Edits, lost: set<ChunkPos>, x: i32, y: i32, z: i32)
    ensures Look(g, StoredEdits(edits, lost), x, y, z)
         == if PosOf(x, z) in lost then Look(g, map[], x, y, z) else Stored(Look(g, edits, x, y, z))
  {
    hide Supported;
    assert PosAt((x, y, z)) == PosOf(x, z);
    SupportedStates(g.Block(x, y, z));
    AirIsStored();
  }

  lemma SaveShows(g: TerrainGenerator, stored: Columns, chunks: Columns, lost: set<ChunkPos>, edits: Edits,
      x: i32, y: i32, z: i32)
    requires ValidColumns(chunks) && ValidColumns(stored) && ShowsEdits(g, chunks, edits)
    requires lost <= chunks.Keys && stored.Keys == chunks.Keys - lost
    requires forall p :: p in stored ==> stored[p] == Kept(chunks[p])
    ensures BlockIn(g, stored, x, y, z) == Look(g, StoredEdits(edits, lost), x, y, z)
  {
    hide Generated, Column.Block, Section.Valid, Look, Kept, Supported, StoredEdits;
    var p := PosOf(x, z);
    assert BlockIn(g, chunks, x, y, z) == Look(g, edits, x, y, z);
    StoredLook(g, edits, lost, x, y, z);
    if p in lost {
      GeneratedLooks(g, x, y, z);
    } else if p in chunks {
      KeptBlock(chunks[p], x, y, z);
    } else {
      GeneratedIsSupported(g, p);
      BlockIsSupported(Generated(g, p), x, y, z);
    }
  }

  lemma SaveKeeps(z: Zlib, g: TerrainGenerator, s: System, r: Reference, step: Step)
    requires IsInverse(z) && Inv(z, g, s, r) && step.Save? && Enabled(z, s, step)
    ensures Inv(z, g, Next(z, g, s, step), NextReference(r, step, LostBy(z, s, step)))
  {
    hide Supported, Generated, Holds, Column.Block, Section.Valid, OnlySupported, Kept, AfterSave, WriteAll, Look,
         Recorded, WithinLimits, Lists, BlockIn, StoredEdits;
    var Save(columns, t) := step;
    SaveThenRead(z, s.disk, s.stored, columns, s.chunks, t);
    SaveStoresCache(z, t, s.stored, s.chunks);
    var s' := Next(z, g, s, step);
    forall p | p in s'.stored
      ensures OnlySupported(s'.stored[p])
    {
      KeptIsSupported(s.chunks[p]);
    }
    forall x: i32, y: i32, z: i32
      ensures BlockIn(g, s'.stored, x, y, z) == Look(g, StoredEdits(r.live, s'.lost), x, y, z)
    {
      SaveShows(g, s'.stored, s.chunks, s'.lost, r.live, x, y, z);
    }
  }

  lemma RestartKeeps(z: Zlib, g: TerrainGenerator, s: System, r: Reference)
    requires Inv(z, g, s, r)
    ensures Inv(z, g, Next(z, g, s, Restart), NextReference(r, Restart, {}))
  {
    hide Supported, Generated, Holds, Column.Block, Section.Valid, OnlySupported, Look, Kept;
    forall p | p in s.stored
      ensures SameBlocks(Kept(s.stored[p]), s.stored[p])
    {
      KeptIsSameIff(s.stored[p]);
    }
  }

  lemma StepKeeps(z: Zlib, g: TerrainGenerator, s: System, r: Reference, step: Step)
    requires IsInverse(z) && Inv(z, g, s, r) && Enabled(z, s, step)
    ensures Inv(z, g, Next(z, g, s, step), NextReference(r, step, LostBy(z, s, step)))
  {
    hide Inv, Next, NextReference, Enabled;
    match step
    case Read(x, zz) =>
      ReadKeeps(z, g, s, r, x, zz);
      ReadIsSilent(r, x, zz);
    case Edit(_, _, _, _) => EditKeeps(z, g, s, r, step);
    case Save(_, _) => SaveKeeps(z, g, s, r, step);
    case Restart => RestartKeeps(z, g, s, r);
  }

  lemma ReadIsSilent(r: Reference, x: i32, z: i32)
    ensures NextReference(r, Read(x, z), {}) == r
  {}

  // ----------------------------------------------------------------------- runs

  /** One step of both the system and the reference. */
  ghost predicate Takes(z: Zlib, g: TerrainGenerator, s0: System, r0: Reference, step: Step, s: System, r: Reference) {
    ValidColumns(s0.chunks) && Enabled(z, s0, step) && s == Next(z, g, s0, step)
    && r == NextReference(r0, step, LostBy(z, s0, step))
  }

  /** A run from an empty directory: every step was enabled where it was taken. */
  ghost predicate IsRun(z: Zlib, g: TerrainGenerator, steps: seq<Step>, s: System, r: Reference)
    decreases |steps|
  {
    if |steps| == 0 then s == System(map[], {}, map[], map[], {}) && r == Reference(map[], map[])
    else
      var init, last := steps[..|steps| - 1], steps[|steps| - 1];
      exists s0, r0 :: IsRun(z, g, init, s0, r0) && Takes(z, g, s0, r0, last, s, r)
  }

  lemma StartIsSound(z: Zlib, g: TerrainGenerator)
    ensures Inv(z, g, System(map[], {}, map[], map[], {}), Reference(map[], map[]))
  {
    hide Generated, Column.Block, Look, ReadRegion;
    forall x: i32, y: i32, z: i32
      ensures BlockIn(g, map[], x, y, z) == Look(g, map[], x, y, z)
    {
      GeneratedLooks(g, x, y, z);
    }
  }

  /** Every run of reads, edits, saves and restarts keeps the invariant: what the world shows is the reference's
      live edits over the terrain, what the files hold is its saved edits over the terrain, so caching cannot be
      observed, and the only saved edits ever lost are those of columns whose sector count wraps to zero. */
  lemma {:induction false} RunKeeps(z: Zlib, g: TerrainGenerator, steps: seq<Step>, s: System, r: Reference)
    requires IsInverse(z) && IsRun(z, g, steps, s, r)
    ensures Inv(z, g, s, r)
    decreases |steps|
  {
    hide Inv, Next, NextReference, Enabled;
    if |steps| == 0 {
      StartIsSound(z, g);
    } else {
      var init, last := steps[..|steps| - 1], steps[|steps| - 1];
      var s0, r0 :| IsRun(z, g, init, s0, r0) && Takes(z, g, s0, r0, last, s, r);
      RunKeeps(z, g, init, s0, r0);
      StepKeeps(z, g, s0, r0, last);
    }
  }

  /** At any point of any run, a coordinate reads as the last edit made to it, or else as terrain. */
  lemma WorldRefinesEdits(z: Zlib, g: TerrainGenerator, steps: seq<Step>, s: System, r: Reference, x: i32, y: i32,
      zz: i32)
    requires IsInverse(z) && IsRun(z, g, steps, s, r)
    ensures ValidColumns(s.chunks) && BlockIn(g, s.chunks, x, y, zz) == Look(g, r.live, x, y, zz)
  {
    hide BlockIn, Look, Holds, AllSupported;
    RunKeeps(z, g, steps, s, r);
  }

  /** When nothing is marked dirty, a restart keeps what a coordinate shows exactly when its state is in the block
      table; any other state comes back as air. In a column the last save lost, terrain comes back. */
  lemma CleanRestartIsInvisibleIff(z: Zlib, g: TerrainGenerator, steps: seq<Step>, s: System, r: Reference, x: i32,
      y: i32, zz: i32)
    requires IsInverse(z) && IsRun(z, g, steps, s, r) && s.dirty == {}
    ensures Look(g, r.saved, x, y, zz) == Look(g, r.live, x, y, zz) <==>
      if PosOf(x, zz) in s.lost then Look(g, r.live, x, y, zz) == Look(g, map[], x, y, zz)
      else Supported(Look(g, r.live, x, y, zz))
  {
    hide Look, Holds, AllSupported, Column.Block, Generated, Section.Valid, Kept, Supported;
    RunKeeps(z, g, steps, s, r);
    var p := PosOf(x, zz);
    assert BlockIn(g, s.chunks, x, y, zz) == Look(g, r.live, x, y, zz);
    assert BlockIn(g, s.stored, x, y, zz) == Look(g, r.saved, x, y, zz);
    AirIsStored();
    if p in s.lost {
      GeneratedLooks(g, x, y, zz);
    } else if p in s.chunks {
      assert SameBlocks(Kept(s.chunks[p]), ColumnAt(g, s.stored, p));
      KeptBlock(s.chunks[p], x, y, zz);
    } else {
      GeneratedIsSupported(g, p);
      BlockIsSupported(Generated(g, p), x, y, zz);
    }
  }

  // ------------------------------------------------------- runs that can always save

  lemma PlacedIsSupported(c: Column, x: int, y: int, z: int, state: u16)
    requires c.Valid() && OnlySupported(c) && Supported(state)
    ensures c.Placed(x, y, z, state).Valid() && OnlySupported(c.Placed(x, y, z, state))
  {
    hide Supported, NonAir;
    PlacedThenBlock(c, x, y, z, state, x, y, z);
    AirIsStored();
  }

  ghost predicate EditsSupported(steps: seq<Step>) {
    forall k :: 0 <= k < |steps| && steps[k].Edit? ==> Supported(steps[k].state)
  }

  lemma StepStaysSupported(z: Zlib, g: TerrainGenerator, s: System, r: Reference, step: Step)
    requires Inv(z, g, s, r) && Enabled(z, s, step) && AllSupported(s.chunks) && (step.Edit? ==> Supported(step.state))
    ensures ValidColumns(Next(z, g, s, step).chunks) && AllSupported(Next(z, g, s, step).chunks)
  {
    hide Supported, OnlySupported, Generated, Column.Placed, Section.Valid, ShowsEdits, Holds, CleanColumnsAreStored,
         WriteAll, AfterSave;
    match step
    case Read(x, zz) => GeneratedIsSupported(g, PosOf(x, zz));
    case Edit(x, y, zz, state) =>
      GeneratedIsSupported(g, PosOf(x, zz));
      PlacedIsSupported(ColumnAt(g, s.chunks, PosOf(x, zz)), x, y, zz, state);
    case Save(_, _) =>
    case Restart =>
  }

  /** As long as only states of the table are placed, every cached column can be stored. */
  lemma {:induction false} RunStaysSupported(z: Zlib, g: TerrainGenerator, steps: seq<Step>, s: System, r: Reference)
    requires IsInverse(z) && IsRun(z, g, steps, s, r) && EditsSupported(steps)
    ensures ValidColumns(s.chunks) && AllSupported(s.chunks)
    decreases |steps|
  {
    hide Inv, Next, NextReference, Enabled, AllSupported;
    if |steps| == 0 {
      NothingIsSupported();
    } else {
      var init, last := steps[..|steps| - 1], steps[|steps| - 1];
      var s0, r0 :| IsRun(z, g, init, s0, r0) && Takes(z, g, s0, r0, last, s, r);
      RunKeeps(z, g, init, s0, r0);
      RunStaysSupported(z, g, init, s0, r0);
      StepStaysSupported(z, g, s0, r0, last);
    }
  }

  lemma NothingIsSupported()
    ensures ValidColumns(map[]) && AllSupported(map[])
  {}

  /** With a compression that never more than doubles its input, at any point of any run any listing of the cache
      can be saved. */
  lemma SaveIsEnabled(z: Zlib, s: System, columns: seq<Column>, t: i64)
    requires IsModest(z) && Lists(columns, s.chunks) && AllValid(columns)
    ensures Enabled(z, s, Save(columns, t))
  {
    hide IsModest, AllValid, DistinctPositions, RegionOf, InLimits, Records, InRegion;
    forall r
      ensures AllValid(InRegion(columns, r)) && InLimits(Records(z, InRegion(columns, r), t))
    {
      InRegionIsFilter(columns, r);
      var mine := InRegion(columns, r);
      forall i | 0 <= i < |mine|
        ensures RegionOf(mine[i].pos) == r
      {
        assert mine[i] in mine;
      }
      AnyInLimits(z, mine, t, r);
    }
  }

  /** And as long as edits place table states, no save loses a record. */
  lemma SupportedSaveLosesNothing(z: Zlib, g: TerrainGenerator, steps: seq<Step>, s: System, r: Reference, t: i64)
    requires IsInverse(z) && IsModest(z) && IsRun(z, g, steps, s, r) && EditsSupported(steps)
    ensures ValidColumns(s.chunks) && Lost(z, t, s.chunks) == {}
  {
    hide IsRun, IsModest, OnlySupported, Section.Valid, Fits, Recorded;
    RunStaysSupported(z, g, steps, s, r);
    forall p | p in s.chunks
      ensures Recorded(z, s.chunks[p], t)
    {
      SupportedFits(z, s.chunks[p], t);
      FittingIsRecorded(z, s.chunks[p], t);
    }
  }

  lemma FittingIsRecorded(z: Zlib, c: Column, t: i64)
    requires c.Valid() && Fits(z, c, t)
    ensures Recorded(z, c, t)
  {
    hide RecordOf;
  }
}
