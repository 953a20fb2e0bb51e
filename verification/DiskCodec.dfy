/** `write_chunks` (`loadstone-world/src/anvil.rs`): group by region, then rewrite each region. */
module DiskCodec {
  import opened Machine
  import opened Compression
  import opened Chunk
  import opened Region
  import opened RegionCodec
  import opened Disk

  lemma InRegionSnoc(columns: seq<Column>, k: nat, r: (int, int))
    requires k < |columns|
    ensures InRegion(columns[..k + 1], r)
         == InRegion(columns[..k], r) + if RegionOf(columns[k].pos) == r then [columns[k]] else []
    ensures Regions(columns[..k + 1]) == Regions(columns[..k]) + {RegionOf(columns[k].pos)}
  {
    hide RegionOf;
    assert columns[..k + 1][..k] == columns[..k];
    assert columns[..k + 1] == columns[..k] + [columns[k]];
  }

  lemma {:induction false} NoneInRegion(columns: seq<Column>, r: (int, int))
    requires r !in Regions(columns)
    ensures InRegion(columns, r) == []
  {
    hide RegionOf;
    if |columns| > 0 {
      var init := columns[..|columns| - 1];
      assert columns == init + [columns[|columns| - 1]];
      NoneInRegion(init, r);
    }
  }

  method GroupByRegion(chunks: seq<Chunk>, ghost columns: seq<Column>) returns (byRegion: map<(int, int), seq<Chunk>>)
    requires Shows(chunks, columns)
    ensures byRegion.Keys == Regions(columns)
    ensures forall r :: r in byRegion ==> Shows(byRegion[r], InRegion(columns, r))
  {
    hide RegionOf, InRegion, Regions, Chunk.Valid, Chunk.Value;
    byRegion := map[];
    NoRegions();
    assert columns[..0] == [];
    for k := 0 to |chunks|
      invariant byRegion.Keys == Regions(columns[..k])
      invariant forall r :: r in byRegion ==> Shows(byRegion[r], InRegion(columns[..k], r))
    {
      var r := RegionOf(chunks[k].pos);
      assert RegionOf(columns[k].pos) == r by { PositionShown(chunks, columns, k); }
      forall q
        ensures q == r || InRegion(columns[..k + 1], q) == InRegion(columns[..k], q)
      {
        InRegionSnoc(columns, k, q);
      }
      InRegionSnoc(columns, k, r);
      if r !in byRegion {
        NoneInRegion(columns[..k], r);
      }
      var group := if r in byRegion then byRegion[r] else [];
      byRegion := byRegion[r := group + [chunks[k]]];
    }
    assert columns[..|chunks|] == columns;
  }

  lemma NoRegions()
    ensures Regions([]) == {}
  {}

  lemma PositionShown(chunks: seq<Chunk>, columns: seq<Column>, k: nat)
    requires Shows(chunks, columns) && k < |chunks|
    ensures columns[k].pos == chunks[k].pos
  {}

  lemma RewrittenBytes(z: Zlib, disk: Files, columns: seq<Column>, lastUpdate: i64)
    requires AllValid(columns)
    ensures var goal := WriteAll(z, disk, columns, lastUpdate);
      && goal.Keys == disk.Keys + Regions(columns)
      && (forall r :: r in disk && r !in Regions(columns) ==> goal[r] == disk[r])
      && (forall r :: r in Regions(columns) ==>
            AllValid(InRegion(columns, r)) && goal[r] == FileBytes(Records(z, InRegion(columns, r), lastUpdate)))
  {
    hide RegionOf, InRegion, FileBytes, Records, Regions;
    forall r
      ensures AllValid(InRegion(columns, r))
    {
      InRegionIsFilter(columns, r);
    }
  }

  method WriteChunks(z: Zlib, disk: Files, chunks: seq<Chunk>, ghost columns: seq<Column>, lastUpdate: i64)
      returns (disk': Files)
    requires Shows(chunks, columns) && AllValid(columns)
    ensures disk' == WriteAll(z, disk, columns, lastUpdate)
  {
    hide RegionOf, InRegion, FileBytes, Records, Regions, WriteAll, Section.Valid, NonAir, Chunk.Valid, Chunk.Value,
         AllValid;
    var byRegion := GroupByRegion(chunks, columns);
    ghost var goal := WriteAll(z, disk, columns, lastUpdate);
    RewrittenBytes(z, disk, columns, lastUpdate);
    disk' := disk;
    var todo := byRegion.Keys;
    while todo != {}
      invariant todo <= byRegion.Keys
      invariant forall r :: r in byRegion ==> Shows(byRegion[r], InRegion(columns, r))
      invariant forall r :: r in disk' <==> r in disk || (r in byRegion && r !in todo)
      invariant forall r :: r in byRegion && r !in todo ==> disk'[r] == goal[r]
      invariant forall r :: r in disk && (r !in byRegion || r in todo) ==> disk'[r] == disk[r]
      decreases todo
    {
      var r :| r in todo;
      todo := todo - {r};
      var file := WriteRegion(z, byRegion[r], InRegion(columns, r), lastUpdate);
      disk' := disk'[r := file];
    }
  }
}
