/** The shared world (`loadstone-world/src/world.rs`): a cache of columns over the generator, edited
    in place, saved to and loaded from region files. */
module World {
  import opened Machine
  import opened Compression
  import opened Chunk
  import opened Terrain
  import opened ChunkNbt
  import opened Region
  import opened RegionProofs
  import opened RegionCodec
  import opened Disk
  import opened DiskCodec
  import opened SeedFile

  const WORLD_BORDER_RADIUS: int := 8

  function PosOf(x: i32, z: i32): ChunkPos { ChunkPos(x / 16, z / 16) }

  predicate AllowEditing(x: i32, y: i32, z: i32) {
    && -WORLD_BORDER_RADIUS <= x / 16 <= WORLD_BORDER_RADIUS
    && -WORLD_BORDER_RADIUS <= z / 16 <= WORLD_BORDER_RADIUS
    && MIN_Y < y < MIN_Y + WORLD_HEIGHT
  }

  /** The editable box in block coordinates: eight chunks each way around the origin's, above the bottom layer and
      below the build height. */
  lemma EditableBox(x: i32, y: i32, z: i32)
    ensures AllowEditing(x, y, z) <==> -128 <= x < 144 && -128 <= z < 144 && -63 <= y < 320
  {}

  // ------------------------------------------------- what the cache stands for

  /** The column at a position: cached, or as the generator makes it. */
  ghost function ColumnAt(g: TerrainGenerator, chunks: Columns, pos: ChunkPos): (c: Column)
    requires ValidColumns(chunks)
    ensures c.Valid() && c.pos == pos
  {
    if pos in chunks then chunks[pos] else Generated(g, pos)
  }

  ghost function BlockIn(g: TerrainGenerator, chunks: Columns, x: i32, y: i32, z: i32): u16
    requires ValidColumns(chunks)
  {
    ColumnAt(g, chunks, PosOf(x, z)).Block(x, y, z)
  }

  ghost function Cached(g: TerrainGenerator, chunks: Columns, pos: ChunkPos): (r: Columns)
    requires ValidColumns(chunks)
    ensures ValidColumns(r)
  {
    chunks[pos := ColumnAt(g, chunks, pos)]
  }

  ghost function Edited(g: TerrainGenerator, chunks: Columns, x: i32, y: i32, z: i32, state: u16): (r: Columns)
    requires ValidColumns(chunks)
    ensures ValidColumns(r)
  {
    var c := ColumnAt(g, chunks, PosOf(x, z));
    PlacedThenBlock(c, x, y, z, state, x, y, z);
    chunks[PosOf(x, z) := c.Placed(x, y, z, state)]
  }

  lemma EditedIsPlaced(g: TerrainGenerator, chunks: Columns, x: i32, y: i32, z: i32, state: u16)
    requires ValidColumns(chunks)
    ensures var cached := Cached(g, chunks, PosOf(x, z));
      Edited(g, chunks, x, y, z, state) == cached[PosOf(x, z) := cached[PosOf(x, z)].Placed(x, y, z, state)]
  {
    hide Column.Placed, Generated, Section.Valid;
  }

  // ---------------------------------------------------------------- loading order

  /** Inserting chunks one by one; a later one replaces an earlier one. */
  ghost function Inserted(base: Columns, columns: seq<Column>): Columns {
    if |columns| == 0 then base
    else Inserted(base, columns[..|columns| - 1])[columns[|columns| - 1].pos := columns[|columns| - 1]]
  }

  lemma {:induction false} InsertedSnoc(base: Columns, columns: seq<Column>, k: nat)
    requires k < |columns|
    ensures Inserted(base, columns[..k + 1]) == Inserted(base, columns[..k])[columns[k].pos := columns[k]]
  {
    assert columns[..k + 1][..k] == columns[..k];
  }

  lemma NothingInserted(base: Columns)
    ensures Inserted(base, []) == base
  {}

  /** The part of `m` that lies in the given regions. */
  ghost function Within(m: Columns, regions: set<(int, int)>): Columns {
    map p | p in m && RegionOf(p) in regions :: m[p]
  }

  ghost function Positions(columns: seq<Column>): set<ChunkPos> { set c | c in columns :: c.pos }

  lemma {:induction false} InsertedKeys(base: Columns, columns: seq<Column>, m: Columns)
    requires forall i :: 0 <= i < |columns| ==> columns[i].pos in m && m[columns[i].pos] == columns[i]
    ensures Inserted(base, columns).Keys == base.Keys + Positions(columns)
    ensures forall p :: p in Positions(columns) ==> p in m && Inserted(base, columns)[p] == m[p]
    ensures forall p :: p in base && p !in Positions(columns) ==> Inserted(base, columns)[p] == base[p]
  {
    hide Positions;
    PositionsSnoc(columns);
    if |columns| > 0 {
      InsertedKeys(base, columns[..|columns| - 1], m);
    }
  }

  lemma PositionsSnoc(columns: seq<Column>)
    ensures |columns| == 0 ==> Positions(columns) == {}
    ensures |columns| > 0 ==>
      Positions(columns) == Positions(columns[..|columns| - 1]) + {columns[|columns| - 1].pos}
  {
    if |columns| > 0 {
      assert columns == columns[..|columns| - 1] + [columns[|columns| - 1]];
    }
  }

  /** Inserting a file's chunks adds the region's part of what the disk holds. */
  lemma InsertFile(z: Zlib, disk: Files, m: Columns, base: Columns, done: set<(int, int)>, r: (int, int))
    requires Holds(z, disk, m) && r in disk
    ensures ReadRegion(z, disk[r]).Loaded?
    ensures Inserted(base + Within(m, done), ReadRegion(z, disk[r]).value) == base + Within(m, done + {r})
  {
    hide RegionOf, ReadRegion, DistinctPositions, Inserted, Within, Holds, Positions;
    FilePositions(z, disk, m, r);
    var read := ReadRegion(z, disk[r]).value;
    var before := base + Within(m, done);
    InsertedKeys(before, read, m);
    OverlayRegion(base, m, done, r, Inserted(before, read), Positions(read));
  }

  lemma OverlayRegion(base: Columns, m: Columns, done: set<(int, int)>, r: (int, int), x: Columns, ps: set<ChunkPos>)
    requires forall p :: p in ps <==> p in m && RegionOf(p) == r
    requires x.Keys == (base + Within(m, done)).Keys + ps
    requires forall p :: p in ps ==> x[p] == m[p]
    requires forall p :: p in base + Within(m, done) && p !in ps ==> x[p] == (base + Within(m, done))[p]
    ensures x == base + Within(m, done + {r})
  {
    hide RegionOf;
    var after := base + Within(m, done + {r});
    assert x.Keys == after.Keys;
    forall p | p in x
      ensures x[p] == after[p]
    {}
  }

  lemma FilePositions(z: Zlib, disk: Files, m: Columns, r: (int, int))
    requires Holds(z, disk, m) && r in disk
    ensures ReadRegion(z, disk[r]).Loaded?
    ensures var read := ReadRegion(z, disk[r]).value;
      && (forall i :: 0 <= i < |read| ==> read[i].pos in m && m[read[i].pos] == read[i])
      && (forall p :: p in Positions(read) <==> p in m && RegionOf(p) == r)
  {
    hide RegionOf, ReadRegion, DistinctPositions;
    assert HoldsFile(ReadRegion(z, disk[r]), r, m);
    var read := ReadRegion(z, disk[r]).value;
    forall i | 0 <= i < |read|
      ensures read[i].pos in m && m[read[i].pos] == read[i] && RegionOf(read[i].pos) == r
    {
      assert read[i] in read;
    }
    forall p | p in m && RegionOf(p) == r
      ensures p in Positions(read)
    {
      assert m[p] in read;
    }
  }

  lemma WithinAll(z: Zlib, disk: Files, m: Columns)
    requires Holds(z, disk, m)
    ensures Within(m, disk.Keys) == m
    ensures Within(m, {}) == map[]
  {
    hide RegionOf, ReadRegion;
  }

  // ------------------------------------------------------------------ the world

  ghost function SectionsOf(chunks: map<ChunkPos, Chunk>): set<ChunkSection> {
    set p, i | p in chunks && 0 <= i < |chunks[p].sections| :: chunks[p].sections[i]
  }

  /** Every chunk is filed under its position, is valid and shares no section with another. */
  ghost predicate Separate(chunks: map<ChunkPos, Chunk>)
    reads SectionsOf(chunks)
  {
    && (forall p :: p in chunks ==> chunks[p].pos == p && chunks[p].Valid())
    && (forall p, q, s :: p in chunks && q in chunks && p != q && s in chunks[p].sections ==> s !in chunks[q].sections)
  }

  ghost function ColumnsOf(chunks: map<ChunkPos, Chunk>): (m: Columns)
    requires Separate(chunks)
    reads SectionsOf(chunks)
    ensures ValidColumns(m)
    ensures m.Keys == chunks.Keys && forall p :: p in chunks ==> m[p] == chunks[p].Value()
  {
    map p | p in chunks :: chunks[p].Value()
  }

  class World {
    const generator: TerrainGenerator
    var chunks: map<ChunkPos, Chunk>
    var dirty: set<ChunkPos>

    ghost function Sections(): set<ChunkSection>
      reads this`chunks
    {
      SectionsOf(chunks)
    }

    ghost predicate Valid()
      reads this`chunks, Sections()
    {
      Separate(chunks)
    }

    ghost function Columns(): (m: Columns)
      requires Valid()
      reads this`chunks, Sections()
      ensures ValidColumns(m)
    {
      ColumnsOf(chunks)
    }

    constructor (generator: TerrainGenerator)
      ensures this.generator == generator && Valid() && Columns() == map[] && dirty == {}
    {
      this.generator, chunks, dirty := generator, map[], {};
    }

    lemma OwnSections(pos: ChunkPos)
      requires pos in chunks
      ensures forall s :: s in chunks[pos].sections ==> s in Sections()
    {}

    method Insert(c: Chunk)
      requires Valid() && c.Valid() && forall s :: s in c.sections ==> s !in Sections()
      modifies this`chunks
      ensures Valid() && Columns() == old(Columns())[c.pos := c.Value()]
      ensures chunks == old(chunks)[c.pos := c]
      ensures Sections() <= old(Sections()) + (set s | s in c.sections)
    {
      hide NonAir, Column.Valid, Chunk.Valid, Chunk.Value, ValidColumns;
      chunks := chunks[c.pos := c];
    }

    /** `chunk`: the cached column, generated first if it is not there yet. */
    method ChunkAt(pos: ChunkPos) returns (c: Chunk)
      requires Valid()
      modifies this`chunks
      ensures Valid() && pos in chunks && c == chunks[pos] && c.pos == pos
      ensures Columns() == Cached(generator, old(Columns()), pos)
      ensures fresh(Sections() - old(Sections()))
    {
      hide Section.Valid, Generated;
      if pos !in chunks {
        var generated := GenerateChunk(generator, pos);
        Insert(generated);
      }
      c := chunks[pos];
    }

    method Mark(pos: ChunkPos)
      requires Valid()
      modifies this`dirty
      ensures Valid() && Columns() == old(Columns()) && Sections() == old(Sections())
      ensures dirty == old(dirty) + {pos}
    {
      hide Section.Valid;
      dirty := dirty + {pos};
    }

    /** `chunk_mut`: the same, and the position is marked. */
    method ChunkMut(pos: ChunkPos) returns (c: Chunk)
      requires Valid()
      modifies this
      ensures Valid() && pos in chunks && c == chunks[pos] && c.pos == pos
      ensures Columns() == Cached(generator, old(Columns()), pos)
      ensures dirty == old(dirty) + {pos}
      ensures fresh(Sections() - old(Sections()))
    {
      hide Section.Valid, Generated, NonAir, ColumnAt, Cached, Separate, ColumnsOf, Valid, Columns;
      Mark(pos);
      c := ChunkAt(pos);
    }

    method GetBlock(x: i32, y: i32, z: i32) returns (state: u16)
      requires Valid()
      modifies this`chunks
      ensures Valid() && fresh(Sections() - old(Sections()))
      ensures state == BlockIn(generator, old(Columns()), x, y, z)
      ensures Columns() == Cached(generator, old(Columns()), PosOf(x, z))
    {
      hide Section.Valid, Generated, Column.Block;
      var c := ChunkAt(PosOf(x, z));
      state := c.GetBlock(x, y, z);
    }

    /** Edits a cached column in place; the others do not notice. */
    method EditCached(c: Chunk, x: i32, y: i32, z: i32, state: u16)
      requires Valid() && c.pos in chunks && chunks[c.pos] == c
      modifies c.sections
      ensures Valid() && Columns() == old(Columns())[c.pos := old(Columns())[c.pos].Placed(x, y, z, state)]
    {
      hide Section.Valid, Column.Placed;
      ghost var before := Columns();
      c.SetBlock(x, y, z, state);
      forall q | q in chunks && q != c.pos
        ensures chunks[q].Valid() && chunks[q].Value() == before[q]
      {
        var other := chunks[q];
        assert before[q] == old(other.Value());
        forall i | 0 <= i < |other.sections|
          ensures other.sections[i] !in c.sections
        {
          assert other.sections[i] in other.sections;
        }
        assert other.Value().sections == old(other.Value()).sections;
      }
      assert Columns() == before[c.pos := c.Value()];
    }

    method SetBlock(x: i32, y: i32, z: i32, state: u16)
      requires Valid()
      modifies this, Sections()
      ensures Valid() && fresh(Sections() - old(Sections()))
      ensures Columns() == Edited(generator, old(Columns()), x, y, z, state)
      ensures dirty == old(dirty) + {PosOf(x, z)}
    {
      hide Section.Valid, Generated, NonAir, ColumnAt, Cached, Edited, Column.Placed, Separate, ColumnsOf;
      var c := ChunkMut(PosOf(x, z));
      EditedIsPlaced(generator, old(Columns()), x, y, z, state);
      OwnSections(c.pos);
      EditCached(c, x, y, z, state);
    }

    method IsBreakable(x: i32, y: i32, z: i32) returns (breakable: bool)
      requires Valid()
      modifies this`chunks
      ensures Valid()
      ensures breakable <==> AllowEditing(x, y, z) && BlockIn(generator, old(Columns()), x, y, z) != AIR
      ensures Columns()
        == if AllowEditing(x, y, z) then Cached(generator, old(Columns()), PosOf(x, z)) else old(Columns())
    {
      hide Section.Valid, Generated, Column.Block;
      breakable := AllowEditing(x, y, z);
      if breakable {
        var state := GetBlock(x, y, z);
        breakable := state != AIR;
      }
    }

    method IsEmpty(x: i32, y: i32, z: i32) returns (empty: bool)
      requires Valid()
      modifies this`chunks
      ensures Valid()
      ensures empty <==> AllowEditing(x, y, z) && BlockIn(generator, old(Columns()), x, y, z) == AIR
      ensures Columns()
        == if AllowEditing(x, y, z) then Cached(generator, old(Columns()), PosOf(x, z)) else old(Columns())
    {
      hide Section.Valid, Generated, Column.Block;
      empty := AllowEditing(x, y, z);
      if empty {
        var state := GetBlock(x, y, z);
        empty := state == AIR;
      }
    }

    /** Inserts the chunks of one file. */
    method InsertAll(read: seq<Chunk>, ghost columns: seq<Column>)
      requires Valid() && Shows(read, columns) && Apart(read)
      requires forall i, s :: 0 <= i < |read| && s in read[i].sections ==> s !in Sections()
      modifies this`chunks
      ensures Valid() && Columns() == Inserted(old(Columns()), columns)
    {
      hide NonAir, Column.Valid, Chunk.Valid, Chunk.Value, ValidColumns, Inserted;
      ghost var base := Columns();
      NothingInserted(base);
      assert columns[..0] == [];
      for k := 0 to |read|
        invariant Valid() && Columns() == Inserted(base, columns[..k])
        invariant forall i, s :: k <= i < |read| && s in read[i].sections ==> s !in Sections()
      {
        InsertedSnoc(base, columns, k);
        Insert(read[k]);
      }
      assert columns[..|read|] == columns;
    }

    /** One file of `load_from`. */
    method LoadFile(z: Zlib, data: seq<byte>) returns (r: Load<()>)
      requires Valid()
      modifies this`chunks
      ensures Valid()
      ensures match ReadRegion(z, data)
              case Loaded(columns) => r == Loaded(()) && Columns() == Inserted(old(Columns()), columns)
              case Invalid(e) => r == Invalid(e) && Columns() == old(Columns())
    {
      hide Section.Valid, ReadRegion, Inserted;
      ghost var base := Columns();
      var read := ReadRegionFile(z, data);
      forall p | p in chunks
        ensures chunks[p].Valid() && chunks[p].Value() == base[p]
      {}
      assert Columns() == base;
      if read.Invalid? {
        return Invalid(read.error);
      }
      InsertAll(read.value, Values(read.value));
      r := Loaded(());
    }

    /** `load_from`: every file, in whatever order the directory lists them. When the files hold `m`,
        loading succeeds and lays `m` over what was cached. */
    method LoadFrom(z: Zlib, disk: Files, ghost m: Columns) returns (r: Load<()>)
      requires Valid()
      modifies this`chunks
      ensures Valid()
      ensures Holds(z, disk, m) ==> r.Loaded? && Columns() == old(Columns()) + m
    {
      hide Section.Valid, RegionOf, ReadRegion, Holds, Within, Inserted, Valid, Columns;
      ghost var base := Columns();
      var todo := disk.Keys;
      if Holds(z, disk, m) {
        WithinAll(z, disk, m);
      }
      assert base + map[] == base;
      assert disk.Keys - todo == {};
      while todo != {}
        invariant todo <= disk.Keys && Valid()
        invariant Holds(z, disk, m) ==> Columns() == base + Within(m, disk.Keys - todo)
        decreases todo
      {
        var region :| region in todo;
        ghost var done := disk.Keys - todo;
        todo := todo - {region};
        assert disk.Keys - todo == done + {region};
        if Holds(z, disk, m) {
          InsertFile(z, disk, m, base, done, region);
        }
        var loaded := LoadFile(z, disk[region]);
        if loaded.Invalid? {
          return Invalid(loaded.error);
        }
      }
      assert disk.Keys - todo == disk.Keys;
      r := Loaded(());
    }

    /** The cached chunks in whatever order the map yields them. */
    method List() returns (listed: seq<Chunk>, ghost columns: seq<Column>)
      requires Valid()
      ensures Shows(listed, columns) && AllValid(columns) && Lists(columns, Columns())
    {
      hide NonAir, Column.Valid, Chunk.Valid, Chunk.Value;
      listed := [];
      columns := [];
      var todo := chunks.Keys;
      while todo != {}
        invariant todo <= chunks.Keys && Shows(listed, columns) && DistinctPositions(columns)
        invariant forall i :: 0 <= i < |columns| ==>
          columns[i].pos in chunks && columns[i].pos !in todo && columns[i] == chunks[columns[i].pos].Value()
        invariant forall p :: p in chunks && p !in todo ==> chunks[p].Value() in columns
        decreases todo
      {
        var p :| p in todo;
        todo := todo - {p};
        listed := listed + [chunks[p]];
        columns := columns + [chunks[p].Value()];
      }
    }

    /** `save`: writes every cached chunk and the seed, and clears the marks. */
    method Save(z: Zlib, disk: Files, lastUpdate: i64)
      returns (disk': Files, seedFile: string, ghost columns: seq<Column>)
      requires Valid()
      modifies this`dirty
      ensures Valid() && Columns() == old(Columns()) && dirty == {}
      ensures Lists(columns, Columns()) && AllValid(columns) && disk' == WriteAll(z, disk, columns, lastUpdate)
      ensures seedFile == SeedText(generator.seed)
    {
      hide NonAir, Column.Valid, Chunk.Valid, Chunk.Value, ValidColumns, WriteAll, Lists, DistinctPositions;
      var listed;
      listed, columns := List();
      ghost var saved := Columns();
      disk' := WriteChunks(z, disk, listed, columns, lastUpdate);
      forall p | p in chunks
        ensures chunks[p].Valid() && chunks[p].Value() == saved[p]
      {}
      seedFile := SeedText(generator.seed);
      dirty := {};
      assert Valid() && Columns() == saved;
    }
  }
}
