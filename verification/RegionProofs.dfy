/** Region files give back the chunks that were written to them. */
module RegionProofs {
  import opened Machine
  import opened Arith
  import opened Protocol
  import opened Compression
  import opened Chunk
  import opened Nbt
  import opened ChunkNbt
  import opened ChunkNbtProofs
  import opened ChunkNbtBytes
  import opened Region

  // -------------------------------------------------------------------- layout

  /** Extents start at sector 2, follow one another and so are disjoint. */
  lemma {:induction false} ExtentsAreDisjoint(records: seq<Record>, i: nat, j: nat)
    requires i < j <= |records|
    ensures StartOf(records, 0) == 2
    ensures StartOf(records, i) + Sectors(records[i]) <= StartOf(records, j)
    decreases j
  {
    if i < j - 1 {
      ExtentsAreDisjoint(records, i, j - 1);
    }
  }

  lemma {:induction false} BodyLength(records: seq<Record>, k: nat)
    requires k <= |records|
    ensures |Body(records, k)| == (StartOf(records, k) - 2) * SECTOR
    decreases k
  {
    hide RecordBytes;
    if k > 0 {
      BodyLength(records, k - 1);
    }
  }

  lemma {:induction false} BodyGrows(records: seq<Record>, i: nat, j: nat)
    requires i <= j <= |records|
    ensures Body(records, i) <= Body(records, j)
    decreases j
  {
    hide RecordBytes;
    if i < j {
      BodyGrows(records, i, j - 1);
    }
  }

  /** The file ends where the last extent does, and each record stands at its extent: together they
      tile everything after the header. */
  lemma RecordsTileTheFile(records: seq<Record>, k: nat)
    requires HaveSlots(records) && k < |records|
    ensures |FileBytes(records)| == StartOf(records, |records|) * SECTOR
    ensures At(FileBytes(records), StartOf(records, k) * SECTOR, RecordBytes(records[k]))
  {
    hide RecordBytes, Header, StartOf;
    BodyLength(records, |records|);
    BodyLength(records, k);
    BodyGrows(records, k + 1, |records|);
    var all, before := Body(records, |records|), Body(records, k);
    var n := |RecordBytes(records[k])|;
    assert Body(records, k + 1) == before + RecordBytes(records[k]);
    assert all[|before|..|before| + n] == RecordBytes(records[k]);
    var data, start := FileBytes(records), StartOf(records, k) * SECTOR;
    assert start == HEADER + |before|;
    assert data[start..start + n] == all[|before|..|before| + n];
  }

  lemma {:induction false} HeaderOf(records: seq<Record>, n: nat, k: nat)
    requires HaveSlots(records) && DistinctSlots(records) && k < n <= |records|
    ensures Header(records, n)[records[k].slot * 4..records[k].slot * 4 + 4]
         == Location(StartOf(records, k), Sectors(records[k]))
    decreases n
  {
    hide StartOf, WithLocation, Location;
    if k < n - 1 {
      HeaderOf(records, n - 1, k);
    }
  }

  lemma {:induction false} HeaderOfUnused(records: seq<Record>, n: nat, slot: nat)
    requires HaveSlots(records) && n <= |records| && slot < SLOTS
    requires forall k :: 0 <= k < n ==> records[k].slot != slot
    ensures Header(records, n)[slot * 4..slot * 4 + 4] == [0, 0, 0, 0]
    decreases n
  {
    hide StartOf, WithLocation, Location;
    if n > 0 {
      HeaderOfUnused(records, n - 1, slot);
    }
  }

  lemma HeaderOfFile(records: seq<Record>, slot: nat)
    requires HaveSlots(records) && slot < SLOTS
    ensures |FileBytes(records)| >= HEADER
    ensures FileBytes(records)[slot * 4..slot * 4 + 4] == Header(records, |records|)[slot * 4..slot * 4 + 4]
  {
    hide Header, Body;
    var h := Header(records, |records|);
    assert FileBytes(records)[slot * 4..slot * 4 + 4] == h[slot * 4..slot * 4 + 4];
  }

  lemma FileHasHeader(records: seq<Record>)
    requires HaveSlots(records)
    ensures |FileBytes(records)| >= HEADER
  {
    HeaderOfFile(records, 0);
  }

  // ------------------------------------------------------------------- recovery

  lemma LocationBytes(sector: nat, sectors: nat)
    requires sector < 0x100_0000
    ensures var e := Location(sector, sectors);
      (e[0] as int) * 0x1_0000 + (e[1] as int) * 0x100 + e[2] as int == sector && e[3] == sectors % 0x100
  {}

  /** The parts of a record, as the reader slices them. */
  lemma RecordParts(data: seq<byte>, offset: nat, r: Record)
    requires At(data, offset, RecordBytes(r)) && |r.body| + 1 < 0x1_0000_0000
    ensures offset + 5 + |r.body| <= |data|
    ensures FromBigEndian(data[offset..offset + 4]) == |r.body| + 1
    ensures data[offset + 4] == 2 && data[offset + 5..offset + 5 + |r.body|] == r.body
  {
    hide BigEndian, FromBigEndian, Zeros;
    var length := BigEndian((|r.body| + 1) % 0x1_0000_0000, 4);
    var padding := Zeros(Sectors(r) * SECTOR - (5 + |r.body|));
    AtSplit(data, offset, length + [2] + r.body, padding);
    AtSplit(data, offset, length + [2], r.body);
    AtSplit(data, offset, length, [2]);
    assert data[offset + 4] == data[offset + 4..offset + 5][0];
    Pow256Values();
    BigEndianRoundTrip(|r.body| + 1, 4);
  }

  /** The count of sectors does not wrap to zero in its one byte. */
  predicate Survives(r: Record) { Sectors(r) % 0x100 != 0 }

  /** Where three bytes of sector and four bytes of length are enough. */
  ghost predicate InLimits(records: seq<Record>) {
    forall k :: 0 <= k < |records| ==> StartOf(records, k) < 0x100_0000 && |records[k].body| + 1 < 0x1_0000_0000
  }

  /** A record is found again exactly when its sector count does not wrap to zero in its one byte:
      only the count's being zero or not is ever looked at. Otherwise its slot reads as absent. */
  lemma RecordIsFoundIff(records: seq<Record>, k: nat)
    requires HaveSlots(records) && DistinctSlots(records) && k < |records|
    requires StartOf(records, k) < 0x100_0000 && |records[k].body| + 1 < 0x1_0000_0000
    ensures |FileBytes(records)| >= HEADER
    ensures SlotAt(FileBytes(records), records[k].slot)
         == if Survives(records[k]) then Present(2, records[k].body) else Absent
  {
    hide *;
    var r, data, start := records[k], FileBytes(records), StartOf(records, k);
    assert HaveSlots(records) ==> r.slot < SLOTS by { SlotInRange(records, k); }
    HeaderOfFile(records, r.slot);
    HeaderOf(records, |records|, k);
    RecordsTileTheFile(records, k);
    StartsAfterHeader(records, k);
    SlotReads(data, start, r);
  }

  lemma SlotInRange(records: seq<Record>, k: nat)
    requires k < |records| && HaveSlots(records)
    ensures records[k].slot < SLOTS
  {}

  lemma SlotReads(data: seq<byte>, start: nat, r: Record)
    requires |data| >= HEADER && r.slot < SLOTS && 2 <= start < 0x100_0000 && |r.body| + 1 < 0x1_0000_0000
    requires data[r.slot * 4..r.slot * 4 + 4] == Location(start, Sectors(r))
    requires At(data, start * SECTOR, RecordBytes(r))
    ensures SlotAt(data, r.slot) == if Survives(r) then Present(2, r.body) else Absent
  {
    hide Location, RecordBytes, FromBigEndian, Sectors;
    LocationBytes(start, Sectors(r));
    RecordParts(data, start * SECTOR, r);
  }

  lemma StartsAfterHeader(records: seq<Record>, k: nat)
    requires k <= |records|
    ensures StartOf(records, k) >= 2
  {}

  lemma UnusedIsAbsent(records: seq<Record>, slot: nat)
    requires HaveSlots(records) && slot < SLOTS
    requires forall k :: 0 <= k < |records| ==> records[k].slot != slot
    ensures |FileBytes(records)| >= HEADER && SlotAt(FileBytes(records), slot) == Absent
  {
    hide FileBytes, Header;
    HeaderOfFile(records, slot);
    HeaderOfUnused(records, |records|, slot);
  }

  // ---------------------------------------------------------------- whole files

  /** A record that fits: at most 255 sectors. */
  predicate FitsRecord(r: Record) { Sectors(r) <= 255 }

  lemma {:induction false} StartIsBounded(records: seq<Record>, k: nat, per: nat)
    requires k <= |records| && forall i :: 0 <= i < k ==> Sectors(records[i]) <= per
    ensures StartOf(records, k) <= 2 + per * k
    decreases k
  {
    hide Sectors;
    if k > 0 {
      StartIsBounded(records, k - 1, per);
      MulAdd(per, k - 1, 1);
    }
  }

  /** Distinct numbers below `n` are at most `n` many. */
  lemma {:induction false} DistinctBelow(s: seq<nat>, n: nat)
    requires forall i :: 0 <= i < |s| ==> s[i] < n
    requires forall i, j :: 0 <= i < j < |s| ==> s[i] != s[j]
    ensures |s| <= n
    decreases n
  {
    var first := if |s| > 0 then s[0] else 0;
    if n > 0 {
      if i :| 0 <= i < |s| && s[i] == n - 1 {
        DistinctBelow(s[..i] + s[i + 1..], n - 1);
      } else {
        DistinctBelow(s, n - 1);
      }
    }
  }

  lemma AtMostAllSlots(records: seq<Record>)
    requires HaveSlots(records) && DistinctSlots(records)
    ensures |records| <= SLOTS
  {
    var slots := seq(|records|, i requires 0 <= i < |records| => records[i].slot);
    DistinctBelow(slots, SLOTS);
  }

  /** Records of at most 255 sectors in distinct slots are within the limits, and all survive. */
  lemma FittingSurvive(records: seq<Record>)
    requires HaveSlots(records) && DistinctSlots(records)
    requires forall i :: 0 <= i < |records| ==> FitsRecord(records[i])
    ensures InLimits(records) && forall k :: 0 <= k < |records| ==> Survives(records[k])
  {
    hide StartOf, HaveSlots, DistinctSlots, DivCeil;
    AtMostAllSlots(records);
    forall k | 0 <= k < |records|
      ensures StartOf(records, k) < 0x100_0000
    {
      StartIsBounded(records, k, 255);
    }
  }

  ghost predicate DistinctPositions(columns: seq<Column>) {
    forall i, j :: 0 <= i < j < |columns| ==> columns[i].pos != columns[j].pos
  }

  ghost predicate InOneRegion(columns: seq<Column>, region: (int, int)) {
    forall i :: 0 <= i < |columns| ==> RegionOf(columns[i].pos) == region
  }

  /** The column's record can be found again. */
  predicate Recorded(z: Zlib, c: Column, lastUpdate: i64)
    requires c.Valid()
  {
    Survives(RecordOf(z, c, lastUpdate))
  }

  predicate Fits(z: Zlib, c: Column, lastUpdate: i64)
    requires c.Valid()
  {
    FitsRecord(RecordOf(z, c, lastUpdate))
  }

  lemma PositionsGiveSlots(z: Zlib, columns: seq<Column>, lastUpdate: i64, region: (int, int))
    requires AllValid(columns) && DistinctPositions(columns) && InOneRegion(columns, region)
    ensures var records := Records(z, columns, lastUpdate);
      |records| == |columns| && HaveSlots(records) && DistinctSlots(records)
  {
    hide RegionOf, SlotOf, ToNbt;
    var records := Records(z, columns, lastUpdate);
    forall i, j | 0 <= i < j < |records|
      ensures records[i].slot != records[j].slot
    {
      SlotsAreInjective(columns[i].pos, columns[j].pos);
    }
  }

  lemma ChunkIsRead(z: Zlib, c: Column, lastUpdate: i64)
    requires IsInverse(z) && c.Valid()
    ensures ChunkAt(z, 2, RecordOf(z, c, lastUpdate).body) == Loaded(Kept(c))
  {
    hide ToNbt, FromNbt, Kept, RootAt, NamedBytes;
    ChunkBytesRoundTrip(c, lastUpdate);
  }

  /** `v` is what is kept of column `k`, which survives and lies in slot `slot` or above. */
  ghost predicate ComesBack(columns: seq<Column>, lives: seq<bool>, slot: nat, k: int, v: Column)
    requires AllValid(columns) && |lives| == |columns|
  {
    0 <= k < |columns| && lives[k] && SlotOf(columns[k].pos) >= slot && v == Kept(columns[k])
  }

  ghost predicate SomeComesBack(columns: seq<Column>, lives: seq<bool>, slot: nat, v: Column)
    requires AllValid(columns) && |lives| == |columns|
  {
    exists k :: ComesBack(columns, lives, slot, k, v)
  }

  /** The chunks a file holds in slots `slot` and up. */
  ghost predicate ExactlyKept(read: seq<Column>, columns: seq<Column>, lives: seq<bool>, slot: nat)
    requires AllValid(columns) && |lives| == |columns|
  {
    && DistinctPositions(read)
    && (forall v :: v in read <==> SomeComesBack(columns, lives, slot, v))
  }

  ghost function Lives(records: seq<Record>): (lives: seq<bool>)
    ensures |lives| == |records| && forall k :: 0 <= k < |records| ==> lives[k] == Survives(records[k])
  {
    seq(|records|, k requires 0 <= k < |records| => Survives(records[k]))
  }

  lemma {:induction false} ReadSlotsBack(z: Zlib, columns: seq<Column>, lastUpdate: i64, region: (int, int), slot: nat)
    requires IsInverse(z) && AllValid(columns) && DistinctPositions(columns) && InOneRegion(columns, region)
    requires InLimits(Records(z, columns, lastUpdate)) && slot <= SLOTS
    ensures var records := Records(z, columns, lastUpdate);
      var data := FileBytes(records);
      && |data| >= HEADER && ReadSlots(z, data, slot).Loaded?
      && ExactlyKept(ReadSlots(z, data, slot).value, columns, Lives(records), slot)
    decreases SLOTS - slot
  {
    hide *;
    var records := Records(z, columns, lastUpdate);
    var lives, data := Lives(records), FileBytes(records);
    PositionsGiveSlots(z, columns, lastUpdate, region);
    FileHasHeader(records);
    if slot == SLOTS {
      NoSlotsLeft(z, data, columns, lives);
    } else {
      ReadSlotsBack(z, columns, lastUpdate, region, slot + 1);
      var rest := ReadSlots(z, data, slot + 1).value;
      if k: nat :| k < |columns| && SlotOf(columns[k].pos) == slot {
        RecordSlotAndLimits(z, columns, lastUpdate, k);
        RecordIsFoundIff(records, k);
        if Survives(records[k]) {
          assert AllValid(columns) ==> columns[k].Valid() by { ColumnIsValid(columns, k); }
          ChunkIsRead(z, columns[k], lastUpdate);
          ReadPresent(z, data, slot);
          OneMore(rest, columns, lives, region, k, slot + 1);
        } else {
          ReadAbsent(z, data, slot);
          OneSlot(columns, region, k);
          NoneMore(rest, columns, lives, slot, slot + 1);
        }
      } else {
        NoRecordHere(z, columns, lastUpdate, slot);
        UnusedIsAbsent(records, slot);
        ReadAbsent(z, data, slot);
        NoneMore(rest, columns, lives, slot, slot + 1);
      }
    }
  }

  lemma ColumnIsValid(columns: seq<Column>, k: nat)
    requires AllValid(columns) && k < |columns|
    ensures columns[k].Valid()
  {}

  /** No other chunk of the region has the slot of chunk `k`. */
  lemma OneSlot(columns: seq<Column>, region: (int, int), k: nat)
    requires DistinctPositions(columns) && InOneRegion(columns, region) && k < |columns|
    ensures forall i :: 0 <= i < |columns| && SlotOf(columns[i].pos) == SlotOf(columns[k].pos) ==> i == k
  {
    hide SlotOf, RegionOf;
    forall i | 0 <= i < |columns| && SlotOf(columns[i].pos) == SlotOf(columns[k].pos)
      ensures i == k
    {
      SlotsAreInjective(columns[i].pos, columns[k].pos);
    }
  }

  lemma NoRecordHere(z: Zlib, columns: seq<Column>, lastUpdate: i64, slot: nat)
    requires AllValid(columns) && forall k :: 0 <= k < |columns| ==> SlotOf(columns[k].pos) != slot
    ensures forall k :: 0 <= k < |columns| ==> Records(z, columns, lastUpdate)[k].slot != slot
  {
    hide SlotOf, ToNbt, NamedBytes;
  }

  lemma ReadAbsent(z: Zlib, data: seq<byte>, slot: nat)
    requires |data| >= HEADER && slot < SLOTS && SlotAt(data, slot) == Absent
    ensures ReadSlots(z, data, slot) == ReadSlots(z, data, slot + 1)
  {
    hide SlotAt, ChunkAt;
  }

  lemma ReadPresent(z: Zlib, data: seq<byte>, slot: nat)
    requires |data| >= HEADER && slot < SLOTS && SlotAt(data, slot).Present? && ReadSlots(z, data, slot + 1).Loaded?
    ensures var found := SlotAt(data, slot);
      var c := ChunkAt(z, found.compression, found.payload);
      c.Loaded? ==> ReadSlots(z, data, slot) == Loaded([c.value] + ReadSlots(z, data, slot + 1).value)
  {
    hide SlotAt, ChunkAt;
  }

  lemma RecordSlotAndLimits(z: Zlib, columns: seq<Column>, lastUpdate: i64, k: nat)
    requires AllValid(columns) && k < |columns| && InLimits(Records(z, columns, lastUpdate))
    ensures var records := Records(z, columns, lastUpdate);
      && records[k] == RecordOf(z, columns[k], lastUpdate) && records[k].slot == SlotOf(columns[k].pos)
      && StartOf(records, k) < 0x100_0000 && |records[k].body| + 1 < 0x1_0000_0000
  {
    hide ToNbt, NamedBytes, StartOf, SlotOf;
  }

  lemma NoSlotsLeft(z: Zlib, data: seq<byte>, columns: seq<Column>, lives: seq<bool>)
    requires |data| >= HEADER && AllValid(columns) && |lives| == |columns|
    ensures ReadSlots(z, data, SLOTS) == Loaded([]) && ExactlyKept([], columns, lives, SLOTS)
  {
    hide Kept;
  }

  /** A slot whose chunk does not survive, or that no chunk has, adds nothing. */
  lemma NoneMore(rest: seq<Column>, columns: seq<Column>, lives: seq<bool>, slot: nat, next: nat)
    requires AllValid(columns) && |lives| == |columns| && next == slot + 1
    requires ExactlyKept(rest, columns, lives, next)
    requires forall k :: 0 <= k < |columns| && SlotOf(columns[k].pos) == slot ==> !lives[k]
    ensures ExactlyKept(rest, columns, lives, slot)
  {
    hide SlotOf, Kept, DistinctPositions;
    forall v
      ensures SomeComesBack(columns, lives, slot, v) <==> SomeComesBack(columns, lives, next, v)
    {
      if k :| ComesBack(columns, lives, slot, k, v) {
        assert ComesBack(columns, lives, next, k, v);
      }
      if k :| ComesBack(columns, lives, next, k, v) {
        assert ComesBack(columns, lives, slot, k, v);
      }
    }
  }

  lemma OneMore(rest: seq<Column>, columns: seq<Column>, lives: seq<bool>, region: (int, int), k: nat, next: nat)
    requires AllValid(columns) && |lives| == |columns| && DistinctPositions(columns) && InOneRegion(columns, region)
    requires k < |columns| && lives[k] && next == SlotOf(columns[k].pos) + 1 && ExactlyKept(rest, columns, lives, next)
    ensures ExactlyKept([Kept(columns[k])] + rest, columns, lives, SlotOf(columns[k].pos))
  {
    hide SlotOf, RegionOf, Kept, DistinctPositions, InOneRegion;
    var c, slot := Kept(columns[k]), SlotOf(columns[k].pos);
    var all := [c] + rest;
    OneSlot(columns, region, k);
    forall j | 0 <= j < |rest|
      ensures rest[j].pos != c.pos
    {
      assert rest[j] in rest;
      var i :| ComesBack(columns, lives, next, i, rest[j]);
      OtherPosition(columns, i, k);
    }
    PrependDistinct(c, rest);
    forall v
      ensures v in all <==> SomeComesBack(columns, lives, slot, v)
    {
      assert v in all <==> v == c || v in rest;
      assert ComesBack(columns, lives, slot, k, c);
      if i :| ComesBack(columns, lives, next, i, v) {
        assert ComesBack(columns, lives, slot, i, v);
      }
      if i :| ComesBack(columns, lives, slot, i, v) {
        assert i == k || ComesBack(columns, lives, next, i, v);
      }
    }
  }

  lemma OtherPosition(columns: seq<Column>, i: nat, k: nat)
    requires DistinctPositions(columns) && i < |columns| && k < |columns| && i != k
    ensures columns[i].pos != columns[k].pos
  {}

  lemma PrependDistinct(c: Column, rest: seq<Column>)
    requires DistinctPositions(rest) && forall j :: 0 <= j < |rest| ==> rest[j].pos != c.pos
    ensures DistinctPositions([c] + rest)
  {}

  /** Reading a region file back, for any distinct chunks of one region, negative positions included, within
      the limits of the header: exactly the surviving chunks come back, each once. Hence the file gives all of its
      chunks back if and only if no sector count is a multiple of 256. */
  lemma RegionRoundTripIff(z: Zlib, columns: seq<Column>, lastUpdate: i64, region: (int, int))
    requires IsInverse(z) && AllValid(columns) && DistinctPositions(columns) && InOneRegion(columns, region)
    requires InLimits(Records(z, columns, lastUpdate))
    ensures var read := ReadRegion(z, FileBytes(Records(z, columns, lastUpdate)));
      && read.Loaded? && DistinctPositions(read.value)
      && (forall v :: v in read.value <==> SomeBack(z, columns, lastUpdate, v))
      && ((forall k :: 0 <= k < |columns| ==> Kept(columns[k]) in read.value)
            <==> forall k :: 0 <= k < |columns| ==> Recorded(z, columns[k], lastUpdate))
  {
    hide SlotOf, RegionOf, FileBytes, ReadSlots, Kept, Survives, RecordOf, InLimits, DistinctPositions, InOneRegion;
    ReadSlotsBack(z, columns, lastUpdate, region, 0);
    var records := Records(z, columns, lastUpdate);
    var read := ReadSlots(z, FileBytes(records), 0).value;
    forall v
      ensures SomeComesBack(columns, Lives(records), 0, v) <==> SomeBack(z, columns, lastUpdate, v)
    {
      SameBack(z, columns, lastUpdate, v);
    }
    forall k: nat | k < |columns|
      ensures Kept(columns[k]) in read <==> Recorded(z, columns[k], lastUpdate)
    {
      OwnBack(z, columns, lastUpdate, k);
    }
  }

  lemma SameBack(z: Zlib, columns: seq<Column>, lastUpdate: i64, v: Column)
    requires AllValid(columns)
    ensures SomeComesBack(columns, Lives(Records(z, columns, lastUpdate)), 0, v) <==>
      SomeBack(z, columns, lastUpdate, v)
  {
    hide SlotOf, Kept, Survives, RecordOf;
    var lives := Lives(Records(z, columns, lastUpdate));
    if k :| ComesBack(columns, lives, 0, k, v) {
      assert Back(z, columns, lastUpdate, k, v);
    }
    if k :| Back(z, columns, lastUpdate, k, v) {
      assert SlotOf(columns[k].pos) >= 0;
      assert ComesBack(columns, lives, 0, k, v);
    }
  }

  lemma OwnBack(z: Zlib, columns: seq<Column>, lastUpdate: i64, k: nat)
    requires AllValid(columns) && DistinctPositions(columns) && k < |columns|
    ensures SomeBack(z, columns, lastUpdate, Kept(columns[k])) <==> Recorded(z, columns[k], lastUpdate)
  {
    hide Kept, Survives, RecordOf, DistinctPositions;
    var v := Kept(columns[k]);
    assert Recorded(z, columns[k], lastUpdate) ==> Back(z, columns, lastUpdate, k, v);
    if i :| Back(z, columns, lastUpdate, i, v) {
      if i != k {
        OtherPosition(columns, i, k);
      }
    }
  }

  /** `v` is what is kept of column `k`, whose record survives. */
  ghost predicate Back(z: Zlib, columns: seq<Column>, lastUpdate: i64, k: int, v: Column)
    requires AllValid(columns)
  {
    0 <= k < |columns| && Recorded(z, columns[k], lastUpdate) && v == Kept(columns[k])
  }

  ghost predicate SomeBack(z: Zlib, columns: seq<Column>, lastUpdate: i64, v: Column)
    requires AllValid(columns)
  {
    exists k :: Back(z, columns, lastUpdate, k, v)
  }

  /** In particular when every chunk takes at most 255 sectors. */
  lemma RegionRoundTrip(z: Zlib, columns: seq<Column>, lastUpdate: i64, region: (int, int))
    requires IsInverse(z) && AllValid(columns) && DistinctPositions(columns) && InOneRegion(columns, region)
    requires forall i :: 0 <= i < |columns| ==> Fits(z, columns[i], lastUpdate)
    ensures var read := ReadRegion(z, FileBytes(Records(z, columns, lastUpdate)));
      && read.Loaded? && DistinctPositions(read.value)
      && (forall v :: v in read.value <==> exists k :: 0 <= k < |columns| && v == Kept(columns[k]))
  {
    hide RegionOf, FileBytes, ReadRegion, Kept, Survives, FitsRecord, RecordOf, DistinctPositions, InOneRegion,
         InLimits;
    var records := Records(z, columns, lastUpdate);
    PositionsGiveSlots(z, columns, lastUpdate, region);
    FittingSurvive(records);
    RegionRoundTripIff(z, columns, lastUpdate, region);
    forall k | 0 <= k < |columns|
      ensures Back(z, columns, lastUpdate, k, Kept(columns[k]))
    {
      assert Survives(records[k]);
    }
  }

  // -------------------------------------------------------- the format on disk

  /** Where a chunk lies: its region's corner plus its slot, counting x fastest. */
  lemma PositionOfSlot(pos: ChunkPos)
    ensures pos.x == 32 * RegionOf(pos).0 + SlotOf(pos) % 32
    ensures pos.z == 32 * RegionOf(pos).1 + SlotOf(pos) / 32
  {
    var a, b := pos.x % 32, pos.z % 32;
    assert SlotOf(pos) == a + b * 32;
  }

  /** The four bytes of a slot, as one number: start sector and sector count, each cut to its bytes. */
  lemma LocationSays(sector: nat, sectors: nat)
    ensures FromBigEndian(Location(sector, sectors)) == sector % 0x100_0000 * 0x100 + sectors % 0x100
  {
    hide FromBigEndian;
    var b := Location(sector, sectors);
    FourBytesSay(b[0], b[1], b[2], b[3]);
    ThreeBytesOf(sector);
  }

  lemma ThreeBytesOf(sector: nat)
    ensures sector / 0x1_0000 % 0x100 * 0x1_0000 + sector / 0x100 % 0x100 * 0x100 + sector % 0x100
         == sector % 0x100_0000
  {
    DivDiv(sector, 0x100, 0x100);
    var q1, q2, q3 := sector / 0x100, sector / 0x1_0000, sector / 0x1_0000 / 0x100;
    var b0, b1, b2 := sector % 0x100, q1 % 0x100, q2 % 0x100;
    Euclid(sector, 0x100);
    Euclid(q1, 0x100);
    Euclid(q2, 0x100);
    DivMod(q3, b2 * 0x1_0000 + b1 * 0x100 + b0, 0x100_0000);
  }

  lemma FourBytesSay(a: byte, b: byte, c: byte, d: byte)
    ensures FromBigEndian([a, b, c, d]) == ((a * 0x100 + b) * 0x100 + c) * 0x100 + d
  {
    hide FromBigEndian;
    NoBytesSay();
    SaysMore([], a);
    SaysMore([a], b);
    SaysMore([a, b], c);
    SaysMore([a, b, c], d);
    assert [a, b, c, d] == [a, b, c] + [d] && [a, b] + [c] == [a, b, c];
    assert [a] + [b] == [a, b] && [] + [a] == [a];
  }

  lemma NoBytesSay()
    ensures FromBigEndian([]) == 0
  {}

  lemma SaysMore(s: seq<byte>, b: byte)
    ensures FromBigEndian(s + [b]) == FromBigEndian(s) * 0x100 + b
  {
    assert (s + [b])[..|s|] == s;
  }

  /** In a region file the entry of each chunk says where its record starts and how many sectors it takes. */
  lemma HeaderSays(records: seq<Record>, k: nat)
    requires HaveSlots(records) && DistinctSlots(records) && k < |records|
    ensures |FileBytes(records)| >= HEADER
    ensures var slot := records[k].slot;
      FromBigEndian(FileBytes(records)[slot * 4..slot * 4 + 4])
        == StartOf(records, k) % 0x100_0000 * 0x100 + Sectors(records[k]) % 0x100
  {
    hide FileBytes, Header, Location, FromBigEndian, Sectors, StartOf, DistinctSlots;
    var slot := records[k].slot;
    FileHasHeader(records);
    HeaderOfFile(records, slot);
    HeaderOf(records, |records|, k);
    LocationSays(StartOf(records, k), Sectors(records[k]));
  }

  /** The second half of the header, the timestamps, stays zero. */
  lemma {:induction false} TimestampsAreZero(records: seq<Record>, k: nat)
    requires k <= |records| && HaveSlots(records)
    ensures forall i :: 4096 <= i < HEADER ==> Header(records, k)[i] == 0
    decreases k
  {
    hide Location, Sectors, StartOf;
    if k > 0 {
      TimestampsAreZero(records, k - 1);
      assert records[k - 1].slot < SLOTS;
    }
  }

  /** A record: its length and the compression id, the compressed bytes, and zeros to the end of the first sector
      that holds them all. */
  lemma RecordFormat(r: Record)
    requires |r.body| + 1 < 0x1_0000_0000
    ensures var bytes, used := RecordBytes(r), 5 + |r.body|;
      && used <= |bytes| == Sectors(r) * SECTOR < used + SECTOR
      && FromBigEndian(bytes[..4]) == |r.body| + 1 && bytes[4] == 2 && bytes[5..used] == r.body
      && forall i :: used <= i < |bytes| ==> bytes[i] == 0
  {
    hide BigEndian, FromBigEndian;
    var length := BigEndian((|r.body| + 1) % 0x1_0000_0000, 4);
    var bytes := RecordBytes(r);
    assert bytes[..4] == length;
    assert bytes[5..5 + |r.body|] == r.body;
    Pow256Values();
    BigEndianRoundTrip(|r.body| + 1, 4);
  }
}
