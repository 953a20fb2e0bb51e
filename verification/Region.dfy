/** Region files (`loadstone-world/src/anvil.rs`): an 8 KiB header of 1024 locations, then records in
    whole sectors. What a list of chunks is written as, and what a file is read as. */
module Region {
  import opened Machine
  import opened Protocol
  import opened Compression
  import opened Chunk
  import opened Nbt
  import opened ChunkNbt

  const REGION_SIZE: int := 32
  const SECTOR: nat := 4096
  const HEADER: nat := 8192
  const SLOTS: nat := 1024

  function RegionOf(pos: ChunkPos): (int, int) { (pos.x / REGION_SIZE, pos.z / REGION_SIZE) }

  function SlotOf(pos: ChunkPos): (slot: nat)
    ensures slot < SLOTS
  {
    pos.x % REGION_SIZE + pos.z % REGION_SIZE * REGION_SIZE
  }

  /** Region and slot together identify a position, negative coordinates included. */
  lemma SlotsAreInjective(a: ChunkPos, b: ChunkPos)
    ensures RegionOf(a) == RegionOf(b) && SlotOf(a) == SlotOf(b) <==> a == b
  {
    assert a.x == a.x / 32 * 32 + a.x % 32 && b.x == b.x / 32 * 32 + b.x % 32;
    assert a.z == a.z / 32 * 32 + a.z % 32 && b.z == b.z / 32 * 32 + b.z % 32;
  }

  // -------------------------------------------------------------------- writing

  /** One chunk of a region: its slot and its compressed bytes. */
  datatype Record = Record(slot: nat, body: seq<byte>)

  function Sectors(r: Record): (n: nat)
    ensures n >= 1 && n * SECTOR >= 5 + |r.body|
  {
    DivCeil(5 + |r.body|, SECTOR)
  }

  function Zeros(n: nat): (zeros: seq<byte>)
    ensures |zeros| == n && forall i :: 0 <= i < n ==> zeros[i] == 0
  {
    seq(n, _ => 0)
  }

  /** Length, compression id 2, the bytes, and zeros up to the next sector. */
  function RecordBytes(r: Record): (bytes: seq<byte>)
    ensures |bytes| == Sectors(r) * SECTOR
  {
    BigEndian((|r.body| + 1) % 0x1_0000_0000, 4) + [2] + r.body + Zeros(Sectors(r) * SECTOR - (5 + |r.body|))
  }

  /** The sector record `k` starts at. */
  function StartOf(records: seq<Record>, k: nat): (sector: nat)
    requires k <= |records|
    ensures sector >= 2 + k
  {
    if k == 0 then 2 else StartOf(records, k - 1) + Sectors(records[k - 1])
  }

  function Body(records: seq<Record>, k: nat): seq<byte>
    requires k <= |records|
  {
    if k == 0 then [] else Body(records, k - 1) + RecordBytes(records[k - 1])
  }

  /** A location entry: three bytes of sector, one of sector count, each truncated. */
  function Location(sector: nat, sectors: nat): (bytes: seq<byte>)
    ensures |bytes| == 4
  {
    [sector / 0x1_0000 % 0x100, sector / 0x100 % 0x100, sector % 0x100, sectors % 0x100]
  }

  function WithLocation(header: seq<byte>, slot: nat, location: seq<byte>): (r: seq<byte>)
    requires |header| == HEADER && slot < SLOTS && |location| == 4
    ensures |r| == HEADER
    ensures r[slot * 4..slot * 4 + 4] == location
    ensures forall s :: 0 <= s < SLOTS && s != slot ==> r[s * 4..s * 4 + 4] == header[s * 4..s * 4 + 4]
  {
    header[..slot * 4] + location + header[slot * 4 + 4..]
  }

  ghost predicate HaveSlots(records: seq<Record>) { forall k :: 0 <= k < |records| ==> records[k].slot < SLOTS }

  ghost predicate DistinctSlots(records: seq<Record>) {
    forall i, j :: 0 <= i < j < |records| ==> records[i].slot != records[j].slot
  }

  ghost function Header(records: seq<Record>, k: nat): (header: seq<byte>)
    requires k <= |records| && HaveSlots(records)
    ensures |header| == HEADER
  {
    if k == 0 then Zeros(HEADER)
    else WithLocation(Header(records, k - 1), records[k - 1].slot,
      Location(StartOf(records, k - 1), Sectors(records[k - 1])))
  }

  ghost function FileBytes(records: seq<Record>): seq<byte>
    requires HaveSlots(records)
  {
    Header(records, |records|) + Body(records, |records|)
  }

  function RecordOf(z: Zlib, c: Column, lastUpdate: i64): Record
    requires c.Valid()
  {
    Record(SlotOf(c.pos), z.compress(NamedBytes(ToNbt(c, lastUpdate), [])))
  }

  ghost predicate AllValid(columns: seq<Column>) { forall i :: 0 <= i < |columns| ==> columns[i].Valid() }

  ghost function Records(z: Zlib, columns: seq<Column>, lastUpdate: i64): (records: seq<Record>)
    requires AllValid(columns)
    ensures |records| == |columns| && HaveSlots(records)
    ensures forall i :: 0 <= i < |columns| ==> records[i] == RecordOf(z, columns[i], lastUpdate)
  {
    seq(|columns|, i requires 0 <= i < |columns| => RecordOf(z, columns[i], lastUpdate))
  }

  // -------------------------------------------------------------------- reading

  datatype Found = Absent | Present(compression: byte, payload: seq<byte>)

  /** What the header and the record it points at say about a slot. */
  function SlotAt(data: seq<byte>, slot: nat): Found
    requires |data| >= HEADER && slot < SLOTS
  {
    var e := data[slot * 4..slot * 4 + 4];
    // the bytes are disjoint, so or-ing them is adding
    var offset := ((e[0] as int) * 0x1_0000 + (e[1] as int) * 0x100 + e[2] as int) * SECTOR;
    if offset == 0 || e[3] == 0 || offset + 5 > |data| then Absent
    else
      var length := FromBigEndian(data[offset..offset + 4]);
      if length == 0 || offset + 4 + length > |data| then Absent
      else Present(data[offset + 4], data[offset + 5..offset + 4 + length])
  }

  function ChunkAt(z: Zlib, compression: byte, payload: seq<byte>): (r: Load<Column>)
    ensures r.Loaded? ==> r.value.Valid()
  {
    if compression != 2 then Invalid(UnsupportedCompression(compression))
    else match z.decompress(payload)
      case None => Invalid(CorruptStream)
      case Some(raw) =>
        match RootAt(raw, 0)
        case Err(e) => Invalid(BadNbt(e))
        case Ok(((_, n), _)) => FromNbt(n)
  }

  /** The chunks of slots `slot` and up; the first bad one fails the whole file. */
  function ReadSlots(z: Zlib, data: seq<byte>, slot: nat): (r: Load<seq<Column>>)
    requires |data| >= HEADER && slot <= SLOTS
    decreases SLOTS - slot
  {
    if slot == SLOTS then Loaded([])
    else match SlotAt(data, slot)
      case Absent => ReadSlots(z, data, slot + 1)
      case Present(compression, payload) =>
        var c :- ChunkAt(z, compression, payload);
        var rest :- ReadSlots(z, data, slot + 1);
        Loaded([c] + rest)
  }

  function ReadRegion(z: Zlib, data: seq<byte>): Load<seq<Column>> {
    if |data| < HEADER then Loaded([]) else ReadSlots(z, data, 0)
  }
}
