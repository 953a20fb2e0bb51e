/** The loops of `write_region`, `read_region` and `write_chunks` (`loadstone-world/src/anvil.rs`). */
module RegionCodec {
  import opened Machine
  import opened Protocol
  import opened Reader
  import opened Compression
  import opened Chunk
  import opened Nbt
  import opened NbtCodec
  import opened ChunkNbt
  import opened ChunkNbtCodec
  import opened Region

  /** The sections of all the chunks: what their values depend on. */
  ghost function Footprint(chunks: seq<Chunk>): set<ChunkSection> {
    set i, j | 0 <= i < |chunks| && 0 <= j < |chunks[i].sections| :: chunks[i].sections[j]
  }

  ghost predicate ValidChunks(chunks: seq<Chunk>)
    reads Footprint(chunks)
  {
    forall i :: 0 <= i < |chunks| ==> chunks[i].Valid()
  }

  ghost function Values(chunks: seq<Chunk>): (columns: seq<Column>)
    requires ValidChunks(chunks)
    reads Footprint(chunks)
    ensures |columns| == |chunks| && AllValid(columns)
    ensures forall i :: 0 <= i < |chunks| ==> columns[i] == chunks[i].Value()
  {
    seq(|chunks|, i requires 0 <= i < |chunks| && ValidChunks(chunks) reads Footprint(chunks) => chunks[i].Value())
  }

  /** The chunks have the values `columns`. */
  ghost predicate Shows(chunks: seq<Chunk>, columns: seq<Column>)
    reads Footprint(chunks)
  {
    |chunks| == |columns| && forall i :: 0 <= i < |chunks| ==> chunks[i].Valid() && chunks[i].Value() == columns[i]
  }

  /** The four byte stores of a location entry. */
  method StoreLocation(header: seq<byte>, slot: nat, sector: nat, sectors: nat) returns (r: seq<byte>)
    requires |header| == HEADER && slot < SLOTS
    ensures r == WithLocation(header, slot, Location(sector, sectors))
  {
    r := header[slot * 4 := sector / 0x1_0000 % 0x100];
    r := r[slot * 4 + 1 := sector / 0x100 % 0x100];
    r := r[slot * 4 + 2 := sector % 0x100];
    r := r[slot * 4 + 3 := sectors % 0x100];
    ghost var location := Location(sector, sectors);
    assert location == [r[slot * 4], r[slot * 4 + 1], r[slot * 4 + 2], r[slot * 4 + 3]];
  }

  method CompressChunk(z: Zlib, c: Chunk, lastUpdate: i64) returns (compressed: seq<byte>)
    requires c.Valid()
    ensures compressed == RecordOf(z, c.Value(), lastUpdate).body
  {
    hide ToNbt, NamedBytes;
    var n := ChunkToNbt(c, lastUpdate);
    var bytes := ToNamedBytes(n, []);
    compressed := z.compress(bytes);
  }

  method WriteRegion(z: Zlib, chunks: seq<Chunk>, ghost columns: seq<Column>, lastUpdate: i64) returns (file: seq<byte>)
    requires Shows(chunks, columns) && AllValid(columns)
    ensures file == FileBytes(Records(z, columns, lastUpdate))
  {
    hide ToNbt, NamedBytes, RecordBytes, WithLocation, Location, RecordOf, Sectors, SlotOf, Header, Body, StartOf,
         BigEndian;
    ghost var records := Records(z, columns, lastUpdate);
    var header: seq<byte> := Zeros(HEADER);
    var body: seq<byte> := [];
    var nextSector: nat := 2;
    NoRecords(records);
    for k := 0 to |chunks|
      invariant |header| == HEADER && Shows(chunks, columns)
      invariant header == Header(records, k) && body == Body(records, k) && nextSector == StartOf(records, k)
    {
      var compressed := CompressChunk(z, chunks[k], lastUpdate);
      ghost var record := records[k];
      assert record == RecordOf(z, columns[k], lastUpdate) && columns[k] == chunks[k].Value();
      RecordSlot(z, columns[k], lastUpdate);
      assert record.body == compressed && record.slot == SlotOf(chunks[k].pos);
      var length := |compressed| + 1;
      var total := 4 + length;
      var sectors := DivCeil(total, SECTOR);
      RecordLayout(record, sectors);
      NextRecord(records, k);
      header := StoreLocation(header, SlotOf(chunks[k].pos), nextSector, sectors);
      body := body + (BigEndian(length % 0x1_0000_0000, 4) + [2] + compressed + Zeros(sectors * SECTOR - total));
      nextSector := nextSector + sectors;
    }
    file := header + body;
  }

  lemma NoRecords(records: seq<Record>)
    requires HaveSlots(records)
    ensures Header(records, 0) == Zeros(HEADER) && Body(records, 0) == [] && StartOf(records, 0) == 2
  {}

  lemma NextRecord(records: seq<Record>, k: nat)
    requires HaveSlots(records) && k < |records|
    ensures StartOf(records, k + 1) == StartOf(records, k) + Sectors(records[k])
    ensures Body(records, k + 1) == Body(records, k) + RecordBytes(records[k])
    ensures Header(records, k + 1)
         == WithLocation(Header(records, k), records[k].slot, Location(StartOf(records, k), Sectors(records[k])))
  {
    hide WithLocation, Location, RecordBytes, Sectors;
  }

  lemma RecordSlot(z: Zlib, c: Column, lastUpdate: i64)
    requires c.Valid()
    ensures RecordOf(z, c, lastUpdate).slot == SlotOf(c.pos)
  {}

  lemma RecordLayout(r: Record, sectors: nat)
    requires sectors == DivCeil(5 + |r.body|, SECTOR)
    ensures sectors == Sectors(r) && sectors * SECTOR >= 5 + |r.body|
    ensures RecordBytes(r)
         == BigEndian((|r.body| + 1) % 0x1_0000_0000, 4) + [2] + r.body + Zeros(sectors * SECTOR - (5 + |r.body|))
  {}

  // -------------------------------------------------------------------- reading

  method ReadChunk(z: Zlib, compression: byte, payload: seq<byte>) returns (r: Load<Chunk>)
    ensures match ChunkAt(z, compression, payload)
            case Loaded(v) => r.Loaded? && fresh(r.value) && fresh(r.value.sections) && r.value.Valid()
              && r.value.Value() == v
            case Invalid(e) => r == Invalid(e)
  {
    hide FromNbt, RootAt;
    if compression != 2 {
      return Invalid(UnsupportedCompression(compression));
    }
    var raw := z.decompress(payload);
    if raw.None? {
      return Invalid(CorruptStream);
    }
    var reader := new PacketReader(raw.value);
    var root := ReadRoot(reader);
    if root.Err? {
      return Invalid(BadNbt(root.error));
    }
    r := ChunkFromNbt(root.value.1);
  }

  /** No section belongs to two chunks. */
  ghost predicate Apart(chunks: seq<Chunk>) {
    forall i, j, s :: 0 <= i < j < |chunks| && s in chunks[i].sections ==> s !in chunks[j].sections
  }

  /** What the slot loop has to return once `head` has been pushed. */
  ghost function Prefixed(head: seq<Column>, tail: Load<seq<Column>>): Load<seq<Column>> {
    match tail
    case Loaded(rest) => Loaded(head + rest)
    case Invalid(e) => Invalid(e)
  }

  /** The read failed as the specification says, or its chunks have the specified values. */
  ghost predicate Reads(r: Load<seq<Chunk>>, spec: Load<seq<Column>>)
    reads if r.Loaded? then Footprint(r.value) else {}
  {
    match r
    case Loaded(chunks) => ValidChunks(chunks) && spec == Loaded(Values(chunks))
    case Invalid(e) => spec == Invalid(e)
  }

  method ReadRegionFile(z: Zlib, data: seq<byte>) returns (r: Load<seq<Chunk>>)
    ensures r.Loaded? ==>
      (forall i :: 0 <= i < |r.value| ==> fresh(r.value[i]) && fresh(r.value[i].sections)) && Apart(r.value)
    ensures Reads(r, ReadRegion(z, data))
  {
    hide ChunkAt, SlotAt, Section.Valid;
    if |data| < HEADER {
      return Loaded([]);
    }
    var chunks: seq<Chunk> := [];
    ghost var columns: seq<Column> := [];
    PrefixedNothing(ReadSlots(z, data, 0));
    for slot := 0 to SLOTS
      invariant |columns| == |chunks| && Apart(chunks)
      invariant forall i :: 0 <= i < |chunks| ==> fresh(chunks[i]) && fresh(chunks[i].sections)
      invariant forall i :: 0 <= i < |chunks| ==> chunks[i].Valid() && chunks[i].Value() == columns[i]
      invariant Prefixed(columns, ReadSlots(z, data, slot)) == ReadSlots(z, data, 0)
    {
      var found := SlotAt(data, slot);
      SlotStep(z, data, slot, columns);
      if found.Present? {
        var c :- ReadChunk(z, found.compression, found.payload);
        chunks := chunks + [c];
        columns := columns + [c.Value()];
      }
    }
    assert columns + [] == columns;
    assert Values(chunks) == columns;
    r := Loaded(chunks);
  }

  lemma PrefixedNothing(r: Load<seq<Column>>)
    ensures Prefixed([], r) == r
  {
    if r.Loaded? {
      assert [] + r.value == r.value;
    }
  }

  lemma SlotStep(z: Zlib, data: seq<byte>, slot: nat, columns: seq<Column>)
    requires |data| >= HEADER && slot < SLOTS
    ensures match SlotAt(data, slot)
            case Absent => Prefixed(columns, ReadSlots(z, data, slot))
              == Prefixed(columns, ReadSlots(z, data, slot + 1))
            case Present(compression, payload) =>
              match ChunkAt(z, compression, payload)
              case Loaded(c) => Prefixed(columns, ReadSlots(z, data, slot))
                == Prefixed(columns + [c], ReadSlots(z, data, slot + 1))
              case Invalid(e) => Prefixed(columns, ReadSlots(z, data, slot)) == Invalid(e)
  {
    hide ChunkAt, SlotAt;
    var rest := ReadSlots(z, data, slot + 1);
    if SlotAt(data, slot).Present? && rest.Loaded? {
      var c := ChunkAt(z, SlotAt(data, slot).compression, SlotAt(data, slot).payload);
      if c.Loaded? {
        assert columns + ([c.value] + rest.value) == columns + [c.value] + rest.value;
      }
    }
  }
}
