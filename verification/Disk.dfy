/** The world directory as a map from region to file, and what a save does to it
    (`write_chunks` of `loadstone-world/src/anvil.rs`, `load_from` and `save` of `world.rs`). */
module Disk {
  import opened Machine
  import opened Compression
  import opened Chunk
  import opened ChunkNbt
  import opened ChunkNbtProofs
  import opened Region
  import opened RegionProofs

  type Files = map<(int, int), seq<byte>>
  type Columns = map<ChunkPos, Column>

  ghost function InRegion(columns: seq<Column>, region: (int, int)): (r: seq<Column>)
    ensures |r| <= |columns|
  {
    if |columns| == 0 then []
    else
      var last := columns[|columns| - 1];
      InRegion(columns[..|columns| - 1], region) + if RegionOf(last.pos) == region then [last] else []
  }

  ghost function Regions(columns: seq<Column>): (regions: set<(int, int)>)
    ensures forall c :: c in columns ==> RegionOf(c.pos) in regions
  {
    set c | c in columns :: RegionOf(c.pos)
  }

  lemma {:induction false} InRegionMembers(columns: seq<Column>, region: (int, int))
    ensures forall v :: v in InRegion(columns, region) <==> v in columns && RegionOf(v.pos) == region
  {
    hide RegionOf, Column.Valid;
    if |columns| > 0 {
      var init, last := columns[..|columns| - 1], columns[|columns| - 1];
      InRegionMembers(init, region);
      assert columns == init + [last];
    }
  }

  lemma {:induction false} InRegionDistinct(columns: seq<Column>, region: (int, int))
    requires DistinctPositions(columns)
    ensures DistinctPositions(InRegion(columns, region))
  {
    hide RegionOf, Column.Valid;
    if |columns| > 0 {
      var init, last := columns[..|columns| - 1], columns[|columns| - 1];
      InRegionDistinct(init, region);
      InRegionMembers(init, region);
      var before := InRegion(init, region);
      forall i | 0 <= i < |before|
        ensures before[i].pos != last.pos
      {
        var k :| 0 <= k < |init| && init[k] == before[i];
        assert columns[k] == before[i];
      }
    }
  }

  lemma InRegionIsFilter(columns: seq<Column>, region: (int, int))
    ensures forall v :: v in InRegion(columns, region) <==> v in columns && RegionOf(v.pos) == region
    ensures DistinctPositions(columns) ==> DistinctPositions(InRegion(columns, region))
    ensures AllValid(columns) ==> AllValid(InRegion(columns, region))
  {
    hide RegionOf, Column.Valid, InRegion, DistinctPositions;
    InRegionMembers(columns, region);
    if DistinctPositions(columns) {
      InRegionDistinct(columns, region);
    }
    var mine := InRegion(columns, region);
    forall i | 0 <= i < |mine|
      ensures mine[i] in columns
    {
      assert mine[i] in mine;
    }
  }

  /** Every region a chunk falls in is rewritten from scratch; other files stay. */
  ghost function WriteAll(z: Zlib, disk: Files, columns: seq<Column>, lastUpdate: i64): Files
    requires AllValid(columns)
  {
    map r | r in disk.Keys + Regions(columns) ::
      if r in Regions(columns) then
        InRegionIsFilter(columns, r);
        FileBytes(Records(z, InRegion(columns, r), lastUpdate))
      else disk[r]
  }

  /** Every file reads without error, and together the files hold exactly `m`, each chunk in its own region. */
  ghost predicate Holds(z: Zlib, disk: Files, m: Columns) {
    && (forall r :: r in disk ==> HoldsFile(ReadRegion(z, disk[r]), r, m))
    && (forall p :: p in m ==>
          && m[p].pos == p && RegionOf(p) in disk
          && ReadRegion(z, disk[RegionOf(p)]).Loaded? && m[p] in ReadRegion(z, disk[RegionOf(p)]).value)
  }

  ghost predicate HoldsFile(read: Load<seq<Column>>, r: (int, int), m: Columns) {
    && read.Loaded? && DistinctPositions(read.value)
    && forall v :: v in read.value ==> RegionOf(v.pos) == r && v.pos in m && m[v.pos] == v
  }

  /** `columns` lists the chunks of `m`, each once. */
  ghost predicate Lists(columns: seq<Column>, m: Columns) {
    && DistinctPositions(columns)
    && (forall i :: 0 <= i < |columns| ==> columns[i].pos in m && m[columns[i].pos] == columns[i])
    && (forall p :: p in m ==> m[p].pos == p && m[p] in columns)
  }

  ghost predicate ValidColumns(m: Columns) { forall p :: p in m ==> m[p].Valid() && m[p].pos == p }

  /** Every region's file stays within what its header and records can count. */
  ghost predicate WithinLimits(z: Zlib, columns: seq<Column>, lastUpdate: i64) {
    forall r :: AllValid(InRegion(columns, r)) && InLimits(Records(z, InRegion(columns, r), lastUpdate))
  }

  /** What is on disk after a save: the saved chunks whose records can be found again, and what lay in regions
      without any saved chunk. */
  ghost function AfterSave(z: Zlib, lastUpdate: i64, stored: Columns, saved: Columns): Columns
    requires ValidColumns(saved)
  {
    map p | p in stored.Keys + saved.Keys
      && (if p in saved then Recorded(z, saved[p], lastUpdate) else !Touched(saved, RegionOf(p))) ::
      if p in saved then Kept(saved[p]) else stored[p]
  }

  ghost predicate Touched(saved: Columns, region: (int, int)) { exists p :: p in saved && RegionOf(p) == region }

  lemma ListsRegions(columns: seq<Column>, m: Columns, region: (int, int))
    requires Lists(columns, m)
    ensures region in Regions(columns) <==> Touched(m, region)
  {
    hide RegionOf;
    if p :| p in m && RegionOf(p) == region {
      assert m[p] in columns;
    }
    if c :| c in columns && RegionOf(c.pos) == region {
      assert c.pos in m;
    }
  }

  lemma RewrittenFile(z: Zlib, columns: seq<Column>, m: Columns, lastUpdate: i64, region: (int, int))
    requires IsInverse(z) && ValidColumns(m) && Lists(columns, m) && AllValid(columns)
    requires WithinLimits(z, columns, lastUpdate)
    ensures AllValid(InRegion(columns, region))
    ensures var read := ReadRegion(z, FileBytes(Records(z, InRegion(columns, region), lastUpdate)));
      && read.Loaded? && DistinctPositions(read.value)
      && (forall v :: v in read.value <==>
            v.pos in m && RegionOf(v.pos) == region && v == Kept(m[v.pos]) && Recorded(z, m[v.pos], lastUpdate))
  {
    hide RegionOf, FileBytes, ReadRegion, Kept, Recorded, InRegion, Records, DistinctPositions, Lists, InLimits,
         IsPart, SomeBack;
    var mine := InRegion(columns, region);
    RegionPart(columns, m, region);
    PartLiesInRegion(mine, m, region);
    RegionRoundTripIff(z, mine, lastUpdate, region);
    forall v: Column
      ensures SomeBack(z, mine, lastUpdate, v) <==>
        v.pos in m && RegionOf(v.pos) == region && v == Kept(m[v.pos]) && Recorded(z, m[v.pos], lastUpdate)
    {
      PartComesBack(z, mine, m, lastUpdate, region, v);
    }
  }

  /** `mine` are the chunks of `m` that lie in the region. */
  ghost predicate IsPart(mine: seq<Column>, m: Columns, region: (int, int)) {
    && (forall i :: 0 <= i < |mine| ==>
          RegionOf(mine[i].pos) == region && mine[i].pos in m && m[mine[i].pos] == mine[i])
    && (forall p :: p in m && RegionOf(p) == region ==> m[p] in mine)
  }

  lemma PartLiesInRegion(mine: seq<Column>, m: Columns, region: (int, int))
    requires IsPart(mine, m, region)
    ensures InOneRegion(mine, region)
  {
    hide RegionOf;
  }

  lemma PartComesBack(z: Zlib, mine: seq<Column>, m: Columns, lastUpdate: i64, region: (int, int), v: Column)
    requires ValidColumns(m) && AllValid(mine) && IsPart(mine, m, region)
    ensures SomeBack(z, mine, lastUpdate, v) <==>
      v.pos in m && RegionOf(v.pos) == region && v == Kept(m[v.pos]) && Recorded(z, m[v.pos], lastUpdate)
  {
    hide RegionOf, Kept, Recorded, Column.Valid;
    if v.pos in m && RegionOf(v.pos) == region && v == Kept(m[v.pos]) && Recorded(z, m[v.pos], lastUpdate) {
      var k :| 0 <= k < |mine| && mine[k] == m[v.pos];
      assert Back(z, mine, lastUpdate, k, v);
    }
  }

  /** A region's share of the listed chunks. */
  lemma RegionPart(columns: seq<Column>, m: Columns, region: (int, int))
    requires Lists(columns, m) && AllValid(columns)
    ensures var mine := InRegion(columns, region);
      AllValid(mine) && DistinctPositions(mine) && IsPart(mine, m, region)
  {
    hide RegionOf, InRegion, AllValid;
    InRegionIsFilter(columns, region);
    var mine := InRegion(columns, region);
    forall i | 0 <= i < |mine|
      ensures RegionOf(mine[i].pos) == region && mine[i].pos in m && m[mine[i].pos] == mine[i]
    {
      assert mine[i] in mine;
    }
  }

  lemma SavedFile(z: Zlib, disk: Files, stored: Columns, columns: seq<Column>, m: Columns, lastUpdate: i64,
      r: (int, int))
    requires IsInverse(z) && Holds(z, disk, stored)
    requires ValidColumns(m) && Lists(columns, m) && AllValid(columns)
    requires WithinLimits(z, columns, lastUpdate)
    requires r in disk.Keys + Regions(columns)
    ensures HoldsFile(ReadRegion(z, WriteAll(z, disk, columns, lastUpdate)[r]), r, AfterSave(z, lastUpdate, stored, m))
  {
    hide RegionOf, FileBytes, ReadRegion, Kept, Recorded, WithinLimits, InRegion, Records, DistinctPositions,
         Touched, Regions, Lists;
    ListsRegions(columns, m, r);
    if Touched(m, r) {
      RewrittenFile(z, columns, m, lastUpdate, r);
    } else {
      assert HoldsFile(ReadRegion(z, disk[r]), r, stored);
      NotSaved(m, r);
    }
  }

  lemma NotSaved(m: Columns, r: (int, int))
    requires !Touched(m, r)
    ensures forall p :: RegionOf(p) == r ==> p !in m
  {
    hide RegionOf;
  }

  lemma SavedChunk(z: Zlib, disk: Files, stored: Columns, columns: seq<Column>, m: Columns, lastUpdate: i64,
      p: ChunkPos)
    requires IsInverse(z) && Holds(z, disk, stored)
    requires ValidColumns(m) && Lists(columns, m) && AllValid(columns)
    requires WithinLimits(z, columns, lastUpdate)
    requires p in AfterSave(z, lastUpdate, stored, m)
    ensures var (disk', after) := (WriteAll(z, disk, columns, lastUpdate), AfterSave(z, lastUpdate, stored, m));
      && after[p].pos == p && RegionOf(p) in disk'
      && ReadRegion(z, disk'[RegionOf(p)]).Loaded? && after[p] in ReadRegion(z, disk'[RegionOf(p)]).value
  {
    hide RegionOf, FileBytes, ReadRegion, Kept, Recorded, WithinLimits, InRegion, Records, DistinctPositions,
         Touched, Regions, Lists;
    ListsRegions(columns, m, RegionOf(p));
    if p in m {
      assert Touched(m, RegionOf(p)) by { SavedTouches(m, p); }
      RewrittenFile(z, columns, m, lastUpdate, RegionOf(p));
    }
  }

  lemma SavedTouches(m: Columns, p: ChunkPos)
    requires p in m
    ensures Touched(m, RegionOf(p))
  {
    hide RegionOf;
  }

  /** Saving any set of chunks, negative positions included, and reading everything back gives exactly those
      whose records can be found again, besides the chunks of regions that were not rewritten. */
  lemma SaveThenRead(z: Zlib, disk: Files, stored: Columns, columns: seq<Column>, m: Columns, lastUpdate: i64)
    requires IsInverse(z) && Holds(z, disk, stored)
    requires ValidColumns(m) && Lists(columns, m) && AllValid(columns)
    requires WithinLimits(z, columns, lastUpdate)
    ensures Holds(z, WriteAll(z, disk, columns, lastUpdate), AfterSave(z, lastUpdate, stored, m))
  {
    hide RegionOf, ReadRegion, WithinLimits, AfterSave, Lists, HoldsFile, WriteAll, Regions;
    var disk', after := WriteAll(z, disk, columns, lastUpdate), AfterSave(z, lastUpdate, stored, m);
    FilesAfter(z, disk, columns, lastUpdate);
    forall r | r in disk'
      ensures HoldsFile(ReadRegion(z, disk'[r]), r, after)
    {
      SavedFile(z, disk, stored, columns, m, lastUpdate, r);
    }
    forall p | p in after
      ensures after[p].pos == p && RegionOf(p) in disk'
        && ReadRegion(z, disk'[RegionOf(p)]).Loaded? && after[p] in ReadRegion(z, disk'[RegionOf(p)]).value
    {
      SavedChunk(z, disk, stored, columns, m, lastUpdate, p);
    }
  }

  lemma FilesAfter(z: Zlib, disk: Files, columns: seq<Column>, lastUpdate: i64)
    requires AllValid(columns)
    ensures WriteAll(z, disk, columns, lastUpdate).Keys == disk.Keys + Regions(columns)
  {
    hide Records, FileBytes, InRegion;
  }

  /** Nothing stored is dropped exactly when every region that is rewritten is rewritten with all of
      its stored chunks, and their records can be found again. */
  lemma SaveDropsNothingIff(z: Zlib, lastUpdate: i64, stored: Columns, saved: Columns)
    requires ValidColumns(saved)
    ensures stored.Keys <= AfterSave(z, lastUpdate, stored, saved).Keys
       <==> forall p :: p in stored && Touched(saved, RegionOf(p)) ==> p in saved && Recorded(z, saved[p], lastUpdate)
  {
    hide RegionOf, Kept, Touched, Recorded;
    var after := AfterSave(z, lastUpdate, stored, saved);
    if stored.Keys <= after.Keys {
      forall p | p in stored && Touched(saved, RegionOf(p))
        ensures p in saved && Recorded(z, saved[p], lastUpdate)
      {
        assert p in after.Keys;
      }
    } else {
      var p :| p in stored && p !in after;
      if p in saved {
        SavedTouches(saved, p);
      }
    }
  }
}
