# LoadstoneMC in Dafny

A verified model of the parts of the LoadstoneMC Minecraft server that carry unbounded properties.
One module per component; where the server changes things in place the model is a class or a loop proved
against a function, and the laws are lemmas about that function.

- **Shared world** (`Play`, `PlayProtocol`, `PacketOrder`, `PlaySafety`, `ChunkStream`, `EntityTick`): connections
  interleave over one locked registry; each client gets direct writes and a FIFO channel. The state machine takes
  one critical section or one socket write per step, and the invariant relates the server's books to what a client
  holds after replaying its packets.
- **World storage** (`Chunk`, `Terrain`, `Heightmap`, `Palette`, `Container`, `ContainerFormat`, `Blocks`, `ChunkNbt*`,
  `ChunkTree`, `ChunkSize`, `Region*`, `Disk*`, `SeedFile`, `World`, `WorldProofs`): sparse sections, lazy generation,
  palettes, bit packing, NBT, the sector allocator and the cache refine a map from coordinate to block across saves
  and restarts.
- **NBT** (`Nbt`, `NbtCodec`, `NbtProofs`, `NbtSkip`, `NbtTruncated`): the printer and parser are inverse exactly on
  the trees the format can express, and the second, length-only parser is compared with the first.
- **Bytes and bits** (`Arith`, `Packing`, `VarInt`, `Reader`, `Protocol`, `Codec`, `LpVec3`, `JavaHex`).
- **CFB8** (`Cfb8`): the mode over any block cipher, under partial socket writes.
- **Mobs** (`Mobs`, `MobSeed`, `MobProofs`, `MobMotion`, `MobStore`): yaw, motion and collisions in exact reals.

Machine integers are subset types of `int` (`Machine`); wrap-around and truncation are written out.

## Where the code does not do what it is meant to

The code is kept as it is. Each entry names the lemmas that say when the behaviour is as meant; the condition is
exact except for the end position of a whole NBT list or compound, where it is sufficient only.

- The length-only NBT parser takes every int array for 4 bytes, every long array for 8, and a top-level short
  for 4 (`read.rs:143`, `203-213`): `NbtSkip.SkipAgrees`, `NbtSkip.TagEndAgrees`, `NbtSkip.IntArrayIsMisread`.
  Two such errors in one compound can cancel out: `NbtSkip.ErrorsCanCancel`.
- A connection that fails while it is being introduced makes clients remove an entity they were never sent, and a
  player announced to a client that had it in its snapshot is spawned there twice: `PlaySafety.KnownIffTold`,
  `PlaySafety.StrangerIsRemoved`.
- A flush can be reported ready with bytes still pending, when the socket accepts none (`crypto.rs:93`):
  `Cfb8.ReadyIsFlushedIff`, `Cfb8.ReadyIsNotFlushed`.
- Block containers of 17 to 128 or more than 256 states are written per long and read as a spanning stream:
  `Container.ContainerRoundTrip`.
- A region record whose sector count is a multiple of 256 is lost, because the count is kept in one byte and
  zero means absent: `RegionProofs.RecordIsFoundIff`, `RegionProofs.RegionRoundTripIff`. Columns of table states are
  far too small for it, unless compression more than doubles them: `ChunkSize.SupportedFits`.
- States outside the eight-entry table are saved as air: `ChunkNbtProofs.KeptIsSameIff`,
  `WorldProofs.CleanRestartIsInvisibleIff`.
- Below the bottom of the world the block function says stone while every chunk says air:
  `Terrain.GeneratedBlock`.
- Frames whose declared sizes exceed the reader's limit are written but cannot be read: `Codec.FrameRoundTrip`.
- Low-precision vectors with a component above 8589934591 are written with a saturated scale, so they come back
  shorter: `LpVec3.ScaleSurvivesIff`, `LpVec3.ReadMoving`.
- `encode.rs:9-10` and `chunk.rs:15-18` describe two packings for the same container; the model follows each
  function's code.

## Model

| member | source | states |
|---|---|---|
| `Play.ServerState.Register` | crates/loadstone-net/src/play.rs:144-182 | registers under the next id and snapshots every other player once, as registered |
| `Play.ServerState.BroadcastJoin` | crates/loadstone-net/src/play.rs:436-464 | the bracketed join frames go into every channel but the newcomer's, in order |
| `Play.ServerState.LeaveWorld` | crates/loadstone-net/src/play.rs:467-487 | the player leaves the registry and every remaining channel gets the tab removal and the entity removal |
| `Play.ServerState.BroadcastExcept` | crates/loadstone-net/src/play.rs:490-498 | one packet into every channel but the source's |
| `Play.ServerState.RecordMovement` | crates/loadstone-net/src/play.rs:590-615 | stores the position and the look that were given for a registered player and returns its id with both as they now stand; an unknown uuid changes nothing |
| `Play.ServerState.TickEntities` | crates/loadstone-net/src/play.rs:523-586 | the streaming half: every player's visible set and channel after a tick; without mobs nothing is touched |
| `Play.StreamMobs` | crates/loadstone-net/src/play.rs:528-585 | the per-player loop: removals first, then spawn and sync per mob in view |
| `Play.Connection.SendExistingPlayers` | crates/loadstone-net/src/play.rs:398-426 | writes the whole introduction after what was there, or a prefix of it when the socket fails |
| `Play.AllMobFramesSnoc` | crates/loadstone-net/src/play.rs:551-582 | one more mob adds its frames at the end |
| `EntityTick.Targets` | crates/loadstone-net/src/play.rs:505-516 | one position for each registered player, two players on one spot giving two |
| `EntityTick.Snapshot` | crates/loadstone-net/src/play.rs:518-523 | every mob of the store once, with the distinct ids from the base up that the stream relies on |
| `EntityTick.TickEntities` | crates/loadstone-net/src/play.rs:504-586 | the whole tick: every mob takes one step towards where the players stand and every player is sent the stepped mobs; with nobody online nothing moves |
| `ChunkStream.VisibleMobsStandOnLoadedColumns` | crates/loadstone-net/src/play.rs:529-537 | a player is shown exactly the mobs that stand on columns of the square streamed around that player |
| `PlayProtocol.ReplayIntroduceAll` | crates/loadstone-net/src/play.rs:398-426 | replaying the introductions gives a fresh client exactly the snapshot |
| `PlayProtocol.ReplayTick` | crates/loadstone-net/src/play.rs:528-585 | replaying a tick's frames turns the old visible mobs into the new ones, those that are new or moved at the position of this tick and the others where they were |
| `PlaySafety.JoinSelf` | crates/loadstone-net/src/play.rs:144-182 | a newcomer's pending direct writes mirror the registry it was snapshotted from |
| `PlaySafety.JoinOther` | crates/loadstone-net/src/play.rs:144-182 | an unannounced newcomer changes nothing for the others |
| `PlaySafety.AnnounceClient` | crates/loadstone-net/src/play.rs:280-283 | announcing keeps every client mirrored, also one that already had the newcomer from its snapshot |
| `PlaySafety.LeaveClient` | crates/loadstone-net/src/play.rs:467-487 | leaving keeps every other client mirrored, also one never told of the leaver |
| `PlaySafety.RecordClient` | crates/loadstone-net/src/play.rs:590-615 | between recording and broadcasting a movement only the position of that player may lag |
| `PlaySafety.FaceClient` | crates/loadstone-net/src/play.rs:785-800 | turning in place changes no client's books |
| `PlaySafety.PublishClient` | crates/loadstone-net/src/play.rs:863-886 | the broadcast brings every told client to the recorded position |
| `PlaySafety.TickClient` | crates/loadstone-net/src/play.rs:504-586 | a tick keeps the replayed mobs equal to the visible set, each where the client was last told it is, and leaves players alone |
| `PlaySafety.DrainClient` | crates/loadstone-net/src/play.rs:633-664 | moving a packet from channel to socket changes nothing in the replayed stream |
| `PlaySafety.StepKeeps` | crates/loadstone-net/src/play.rs:144-664 | every step of every connection and every tick keeps the invariant for every client |
| `PlaySafety.RunKeeps` | crates/loadstone-net/src/play.rs:144-664 | the invariant holds after every interleaving |
| `PlaySafety.WireIsLegal` | crates/loadstone-net/src/play.rs:398-498 | in every interleaving each client's packets are in proper order: a player is spawned only in a bundle and while on the tab list, nothing is mentioned unless spawned and not removed since, no mob is spawned twice or removed while absent, and nothing is said about a player's id after its removal |
| `PacketOrder.ReplaysIffInOrder` | crates/loadstone-net/src/play.rs:398-586 | a client accepts a stream if and only if every packet may follow those before it, said of the packets alone |
| `PlaySafety.KnownIffTold` | crates/loadstone-net/src/play.rs:436-487 | a client holds another player if and only if that player was announced or is in its snapshot; so exactly then a leave removes something it holds, and exactly what was in the snapshot is spawned again by the announcement |
| `PlaySafety.StrangerIsRemoved` | crates/loadstone-net/src/play.rs:180-182 | a connection that fails while being introduced makes the others remove an entity they never met |
| `PlaySafety.DrainedClientIsUpToDate` | crates/loadstone-net/src/play.rs:144-182 | a drained client knows every announced registered player with its skin at its published position, nobody who left, and exactly the visible mobs, each where it was when it last came into view or moved |
| `PlaySafety.LeaveKeepsMobsIff` | crates/loadstone-world/src/entity.rs:17 | player ids may not be mob ids: a leave keeps the mobs right if and only if the id is not one of them |
| `ChunkStream.VisibleChunks` | crates/loadstone-net/src/play.rs:71-79 | every column of the square exactly once |
| `ChunkStream.StreamChunks` | crates/loadstone-net/src/play.rs:675-721 | loads exactly what is missing, unloads exactly what left, new view is the square |
| `ChunkStream.UpdateReplays` | crates/loadstone-net/src/play.rs:675-721 | replaying one update is legal and leaves the square |
| `ChunkStream.WalkReplays` | crates/loadstone-net/src/play.rs:633-664 | for every walk and radius: nothing loaded twice, nothing absent unloaded, every batch size true, and the client holds the square around the last centre |
| `ChunkStream.Streamer.constructor` | crates/loadstone-net/src/play.rs:248-270 | the initial batch gives the client the square around spawn |
| `ChunkStream.Streamer.MoveTo` | crates/loadstone-net/src/play.rs:633-664 | a position update streams only across a chunk border and keeps the client on the square |
| `Chunk.ChunkSection.State` | crates/loadstone-world/src/lib.rs:97-102 | the block at an index, air when the section is sparse |
| `Chunk.ChunkSection.Set` | crates/loadstone-world/src/lib.rs:104-113 | one state changes, the rest and the sparse form stay, the count is exact |
| `Chunk.ChunkSection.Recount` | crates/loadstone-world/src/lib.rs:116-122 | the counting loop counts the states that are not air |
| `Chunk.CountIsZeroIffAir` | crates/loadstone-world/src/lib.rs:116-122 | the count is zero exactly when every state is air |
| `Chunk.PutThenAt` | crates/loadstone-world/src/lib.rs:96-127 | get after set in a section, and the section stays valid |
| `Chunk.PlacedThenBlock` | crates/loadstone-world/src/lib.rs:43-78 | an edit changes exactly the coordinates that name the same block, and none outside the build height |
| `Chunk.Chunk.GetBlock` | crates/loadstone-world/src/lib.rs:43-51 | reads the column's block, negative coordinates included |
| `Chunk.Chunk.SetBlock` | crates/loadstone-world/src/lib.rs:54-62 | updates the column in place as specified |
| `Chunk.Chunk.IsEmpty` | crates/loadstone-world/src/lib.rs:81-85 | looks only at counts yet answers whether every block is air |
| `Chunk.EmptyIffAir` | crates/loadstone-world/src/lib.rs:81-85 | all counts zero if and only if all blocks air |
| `Chunk.CollapseKeepsBlocks` | crates/loadstone-world/src/terrain.rs:91-97 | dropping the states of a section changes no block, and happens exactly when it is all air |
| `Terrain.GenerateChunk` | crates/loadstone-world/src/terrain.rs:67-100 | the nested loops and the collapse build the generated column |
| `Terrain.FillSections` | crates/loadstone-world/src/terrain.rs:75-89 | the loops store the block function at every offset up to the surface and leave air above |
| `Terrain.GeneratedBlock` | crates/loadstone-world/src/terrain.rs:50-100 | the column agrees with the pointwise block function if and only if y is at or above the bottom |
| `WorldProofs.GeneratedLayers` | crates/loadstone-world/src/terrain.rs:50-64 | told from its height, a generated column is bedrock at the bottom, grass on top, three layers of dirt under it, stone in between and air above |
| `WorldProofs.SurfaceIsClampedNoise` | crates/loadstone-world/src/terrain.rs:38-47 | the surface is the rounded noise of seed and column, within the bounds |
| `Heightmap.ColumnHeight` | crates/loadstone-world/src/encode.rs:102-113 | the downward scan, skipping sections by their count, finds the topmost block |
| `Heightmap.ColumnHeights` | crates/loadstone-world/src/encode.rs:98-117 | all 256 heights |
| `Heightmap.HeightMeaning` | crates/loadstone-world/src/encode.rs:96-117 | a number is the height exactly when it is 0 over all air or one above the topmost block |
| `Heightmap.SkipEmptySection` | crates/loadstone-world/src/encode.rs:103-105 | skipping a section whose count is zero loses nothing |
| `Heightmap.PackHeightmap` | crates/loadstone-world/src/encode.rs:120-130 | per-long words at the bit length of the world height |
| `Heightmap.HeightsRoundTrip` | crates/loadstone-protocol/src/chunk.rs:222-227 | 37 words, from which all 256 heights come back |
| `WorldProofs.GeneratedHeights` | crates/loadstone-world/src/encode.rs:154-162 | a generated column's heights are its surface |
| `Palette.BuildPalette` | crates/loadstone-world/src/encode.rs:35-40 | the palette loop |
| `Palette.PaletteIsExact` | crates/loadstone-world/src/anvil.rs:230-235 | no state twice, and exactly the states that occur |
| `Palette.PaletteInOrder` | crates/loadstone-world/src/encode.rs:35-40 | the palette is in order of first appearance |
| `Container.WriteContainer` | crates/loadstone-world/src/encode.rs:34-66 | blocks by width 0, 4 to 8 or 15, then the one-value biome container |
| `Container.WriteIndices` | crates/loadstone-world/src/encode.rs:68-84 | indices, or the states at width 15, packed per long |
| `Container.DecodeContainer` | crates/loadstone-protocol/src/chunk.rs:146-185 | the decoder with its errors |
| `Container.WordCounts` | crates/loadstone-world/src/encode.rs:68-70 | encoder and decoder count the same words exactly for palettes of up to 16 or 129 to 256 |
| `Container.PackedRoundTrip` | crates/loadstone-protocol/src/chunk.rs:84-100 | at widths 4 and 8 the spanning reader finds the per-long indices |
| `Container.ContainerRoundTrip` | crates/loadstone-protocol/src/chunk.rs:146-185 | a full section decodes to itself with nothing left over if and only if its palette has 1 to 16 or 129 to 256 states |
| `Container.EmptyRoundTrip` | crates/loadstone-world/src/encode.rs:42-44 | an empty section decodes to 4096 blocks of air |
| `ContainerFormat.EntryBitsFit` | crates/loadstone-world/src/encode.rs:46-53 | up to 256 states the width is the least from four on that fits every index, beyond it is fifteen |
| `ContainerFormat.ClientReadsStates` | crates/loadstone-world/src/encode.rs:34-84 | for every palette a reader of per-long containers finds exactly the section's states in what the encoder writes |
| `ContainerFormat.DecodesSpanningPalette` | crates/loadstone-protocol/src/chunk.rs:165-185 | at every width up to eight bits the decoder resolves a spanning stream of indices against the palette |
| `ContainerFormat.DecodesSpanningDirect` | crates/loadstone-protocol/src/chunk.rs:152-163 | at every width from nine to sixteen bits it takes a spanning stream of states as they are |
| `Blocks.NamesLeadBack` | crates/loadstone-world/src/blocks.rs:69-79 | the table is a partial bijection between states and names |
| `Blocks.SupportedStates` | crates/loadstone-world/src/blocks.rs:25-66 | exactly these eight states are supported |
| `Blocks.TableNames` | crates/loadstone-world/src/blocks.rs:25-66 | the stored name of each state |
| `ChunkNbt.WidthBound` | crates/loadstone-world/src/anvil.rs:320-323 | the width is the least from four on that fits every index, and at most 12 for a section |
| `ChunkNbtCodec.PackPalette` | crates/loadstone-world/src/anvil.rs:325-335 | the palette indices packed per long |
| `ChunkNbtCodec.UnpackPalette` | crates/loadstone-world/src/anvil.rs:337-353 | word by word to 4096 values, missing words as zero |
| `ChunkNbtCodec.BlockStatesToNbt` | crates/loadstone-world/src/anvil.rs:229-271 | palette, and packed data only when there is a choice |
| `ChunkNbtCodec.ChunkToNbt` | crates/loadstone-world/src/anvil.rs:168-227 | the whole tree |
| `ChunkTree.PlainFields` | crates/loadstone-world/src/anvil.rs:190-198 | the scalar fields that loading skips, the clock included |
| `ChunkTree.EmptyFields` | crates/loadstone-world/src/anvil.rs:209-225 | the lists and compounds that stay empty |
| `ChunkTree.HeightmapFields` | crates/loadstone-world/src/anvil.rs:169-207 | all four heightmaps are 37 words that unpack to the height of every column |
| `ChunkTree.SectionFieldsToo` | crates/loadstone-world/src/anvil.rs:173-187 | each section says its height and its one biome |
| `ChunkTree.PaletteEntryFields` | crates/loadstone-world/src/anvil.rs:240-262 | a palette entry carries the name, and of grass that it is not snowy |
| `ChunkNbtCodec.ReadSection` | crates/loadstone-world/src/anvil.rs:280-314 | one section is rewritten in place, or the missing field reported |
| `ChunkNbtCodec.FillSection` | crates/loadstone-world/src/anvil.rs:296-313 | the one-entry form, the packed form, and the form without data |
| `ChunkNbtCodec.ChunkFromNbt` | crates/loadstone-world/src/anvil.rs:274-317 | reads the column or the first missing field |
| `ChunkNbtProofs.SectionRoundTrip` | crates/loadstone-world/src/anvil.rs:296-313 | a written section reads back as the states it can keep, sparse when all air |
| `ChunkNbtProofs.ChunkRoundTrip` | crates/loadstone-world/src/anvil.rs:168-317 | chunk to NBT and back keeps position and every supported block, unsupported ones become air |
| `ChunkNbtProofs.KeptBlock` | crates/loadstone-world/src/blocks.rs:69-79 | each block after the round trip is the block itself or, outside the table, air |
| `ChunkNbtProofs.KeptIsSameIff` | crates/loadstone-world/src/anvil.rs:244-247 | the round trip is unobservable if and only if every stored state is in the table |
| `ChunkNbtProofs.LoadedIsSupported` | crates/loadstone-world/src/anvil.rs:288-294 | whatever tree is read, only table states come out |
| `ChunkTree.NamedStates` | crates/loadstone-world/src/anvil.rs:288-294 | in any tree a palette entry is the state its name stands for, or air |
| `ChunkTree.NamelessIsRefused` | crates/loadstone-world/src/anvil.rs:288-294 | a palette is refused if and only if some entry has no name |
| `ChunkTree.LoadedCell` | crates/loadstone-world/src/anvil.rs:296-313 | what each block of a section becomes in any tree: missing words, indices past the palette and missing data included |
| `ChunkTree.OneSectionLoads` | crates/loadstone-world/src/anvil.rs:279-287 | a section's tree changes the section its Y names and no other, and none outside the world |
| `ChunkNbtBytes.ChunkIsWellFormed` | crates/loadstone-world/src/anvil.rs:168-227 | every column's tree can be expressed as NBT |
| `ChunkNbtBytes.ChunkBytesRoundTrip` | crates/loadstone-world/src/anvil.rs:119-120 | column to bytes and back |
| `Region.SlotsAreInjective` | crates/loadstone-world/src/anvil.rs:41-43 | region and slot identify a position, negatives included |
| `RegionProofs.PositionOfSlot` | crates/loadstone-world/src/anvil.rs:41-43 | a position is its region's corner plus its slot, counting x fastest |
| `RegionCodec.WriteRegion` | crates/loadstone-world/src/anvil.rs:113-141 | the header and record loop |
| `RegionCodec.ReadRegionFile` | crates/loadstone-world/src/anvil.rs:52-89 | the slot loop, failing at the first bad record |
| `RegionCodec.ReadChunk` | crates/loadstone-world/src/anvil.rs:81-86 | inflate, parse, convert, with each error |
| `RegionProofs.ExtentsAreDisjoint` | crates/loadstone-world/src/anvil.rs:123-136 | extents start at sector 2 and never overlap |
| `RegionProofs.RecordsTileTheFile` | crates/loadstone-world/src/anvil.rs:132-140 | the file is the header and the records at their extents, nothing else |
| `RegionProofs.HeaderOf` | crates/loadstone-world/src/anvil.rs:127-130 | each slot keeps its own location through all later writes |
| `RegionProofs.HeaderSays` | crates/loadstone-world/src/anvil.rs:125-130 | read as one number, a chunk's header entry is its start sector and its sector count |
| `RegionProofs.TimestampsAreZero` | crates/loadstone-world/src/anvil.rs:114 | the second half of the header stays zero |
| `RegionProofs.RecordFormat` | crates/loadstone-world/src/anvil.rs:118-137 | length, compression id, data, and zeros to the end of the first sector that holds them |
| `RegionProofs.RecordIsFoundIff` | crates/loadstone-world/src/anvil.rs:64-82 | a record is found if and only if its sector count does not wrap to zero in one byte |
| `RegionProofs.RegionRoundTripIff` | crates/loadstone-world/src/anvil.rs:52-141 | within the header's limits every surviving chunk of the region reads back, each once and nothing else; so the whole file comes back if and only if no sector count is a multiple of 256 |
| `ChunkSize.ChunkNbtLength` | crates/loadstone-world/src/anvil.rs:168-227 | the NBT of a column of table states never exceeds 90000 bytes |
| `ChunkSize.SupportedFits` | crates/loadstone-world/src/anvil.rs:119-123 | so with a compressor that at most doubles its input such a column always fits 255 sectors |
| `ChunkSize.AnyNbtLength` | crates/loadstone-world/src/anvil.rs:168-227 | the NBT of any column never exceeds 7000000 bytes |
| `ChunkSize.AnyInLimits` | crates/loadstone-world/src/anvil.rs:113-141 | so with such a compressor every region file stays within what three bytes of sector and four of length can say |
| `RegionProofs.UnusedIsAbsent` | crates/loadstone-world/src/anvil.rs:64-71 | a slot without a chunk reads as absent |
| `RegionProofs.RegionRoundTrip` | crates/loadstone-world/src/anvil.rs:52-141 | any distinct chunks of one region, at most 255 sectors each, read back exactly, each once |
| `Disk.SaveThenRead` | crates/loadstone-world/src/anvil.rs:91-111 | saving and reading everything gives exactly the saved chunks whose records survive, besides untouched regions |
| `Disk.SaveDropsNothingIff` | crates/loadstone-world/src/anvil.rs:93-94 | nothing stored is dropped if and only if each rewritten region is given all its stored chunks and their records survive |
| `DiskCodec.GroupByRegion` | crates/loadstone-world/src/anvil.rs:96-102 | each region gets its chunks, in order |
| `DiskCodec.WriteChunks` | crates/loadstone-world/src/anvil.rs:95-111 | each touched region is rewritten, the others kept |
| `World.World.ChunkAt` | crates/loadstone-world/src/world.rs:84-88 | the cached column, generated once |
| `World.World.ChunkMut` | crates/loadstone-world/src/world.rs:91-96 | the same, and the position is marked dirty |
| `World.World.GetBlock` | crates/loadstone-world/src/world.rs:99-105 | reads the cache over the generator |
| `World.World.SetBlock` | crates/loadstone-world/src/world.rs:108-114 | edits one column in place and marks it |
| `World.World.IsBreakable` | crates/loadstone-world/src/world.rs:117-119 | inside the border and not air |
| `World.World.IsEmpty` | crates/loadstone-world/src/world.rs:122-124 | inside the border and air |
| `World.EditableBox` | crates/loadstone-world/src/world.rs:32-37 | the editable box in block coordinates |
| `World.World.LoadFrom` | crates/loadstone-world/src/world.rs:138-155 | in any directory order, lays what the files hold over the cache |
| `World.World.Save` | crates/loadstone-world/src/world.rs:158-173 | writes every cached chunk once and the seed, keeps the cache, clears the marks |
| `SeedFile.SeedRoundTrip` | crates/loadstone-world/src/world.rs:170-189 | every seed reads back from its file, whatever white space surrounds it |
| `SeedFile.OtherSeedFiles` | crates/loadstone-world/src/world.rs:183-189 | what other files give: none without a file or for a number that does not fit |
| `SeedFile.TextOf120` | crates/loadstone-world/src/world.rs:172 | the most significant digit comes first |
| `SeedFile.ReopenedGenerator` | crates/loadstone-world/src/world.rs:178-189 | a world reopened from its seed file has its old generator |
| `World.InsertFile` | crates/loadstone-world/src/world.rs:150-152 | a file adds exactly its region's chunks |
| `WorldProofs.EditedBlock` | crates/loadstone-world/src/world.rs:108-114 | an edit changes one coordinate of the whole world |
| `WorldProofs.SaveKeeps` | crates/loadstone-world/src/world.rs:158-168 | after a save the files hold the saved edits over the terrain, except in columns whose record is lost |
| `WorldProofs.StepKeeps` | crates/loadstone-world/src/world.rs:84-168 | reads, edits, saves and restarts keep the invariant |
| `WorldProofs.RunKeeps` | crates/loadstone-world/src/world.rs:84-168 | over every run: cached positions include those on disk, columns neither marked nor lost read the same from disk, and the only saved edits lost are those of columns whose sector count wraps to zero |
| `WorldProofs.RunStaysSupported` | crates/loadstone-world/src/world.rs:84-168 | as long as edits place table states, every cached column holds only those |
| `WorldProofs.SaveIsEnabled` | crates/loadstone-world/src/world.rs:158-168 | with a compressor that at most doubles its input every listing of every cache can be saved |
| `WorldProofs.SupportedSaveLosesNothing` | crates/loadstone-world/src/world.rs:158-168 | and in a run whose edits place table states no save loses a record |
| `WorldProofs.WorldRefinesEdits` | crates/loadstone-world/src/world.rs:99-114 | every coordinate reads as its last edit, or else as terrain |
| `WorldProofs.CleanRestartIsInvisibleIff` | crates/loadstone-world/src/world.rs:126-129 | with nothing dirty a restart keeps a coordinate if and only if its state is in the table, or, in a column the save lost, is what the terrain has there |
| `NbtCodec.WritePayload` | crates/loadstone-protocol/src/nbt.rs:56-105 | the recursive printer |
| `NbtCodec.ToNamedBytes` | crates/loadstone-protocol/src/nbt.rs:128-134 | named form |
| `NbtCodec.ToAnonymousBytes` | crates/loadstone-protocol/src/nbt.rs:108-125 | anonymous form, without a type byte for other roots |
| `NbtCodec.ReadPayload` | crates/loadstone-protocol/src/nbt.rs:167-219 | the recursive parser with its errors |
| `NbtCodec.ReadRoot` | crates/loadstone-protocol/src/nbt.rs:137-144 | named root |
| `NbtCodec.ReadAnonymous` | crates/loadstone-protocol/src/nbt.rs:147-150 | anonymous root |
| `Nbt.PayloadAt` | crates/loadstone-protocol/src/nbt.rs:167-219 | total on arbitrary bytes; consumes at least one byte and yields the announced type |
| `NbtProofs.PayloadRoundTrip` | crates/loadstone-protocol/src/nbt.rs:56-219 | a well-formed payload reads back wherever it stands |
| `NbtProofs.DecodedIsWellFormed` | crates/loadstone-protocol/src/nbt.rs:167-219 | everything the parser accepts can be printed |
| `NbtProofs.NamedRoundTrip` | crates/loadstone-protocol/src/nbt.rs:128-144 | same name, same tree, no byte left, if and only if the root is a well-formed compound with a name that fits |
| `NbtProofs.AnonymousRoundTrip` | crates/loadstone-protocol/src/nbt.rs:108-150 | the same for anonymous compounds |
| `NbtProofs.NamedInjective` | crates/loadstone-protocol/src/nbt.rs:128-134 | different trees encode differently and no encoding is a prefix of another |
| `NbtProofs.TypeNumbers` | crates/loadstone-protocol/src/nbt.rs:29-45 | the type number of each kind of tag |
| `NbtProofs.EntryLayout` | crates/loadstone-protocol/src/nbt.rs:80-91 | an entry is its type number, name length, name and value |
| `NbtProofs.PayloadLayout` | crates/loadstone-protocol/src/nbt.rs:56-105 | numbers are big-endian, and strings, lists and arrays say their length first |
| `NbtTruncated.UnknownTags` | crates/loadstone-protocol/src/nbt.rs:167-219 | an unknown tag is refused as such |
| `NbtTruncated.NegativeLengths` | crates/loadstone-protocol/src/nbt.rs:221-227 | so is a negative length |
| `NbtTruncated.PayloadExtends` | crates/loadstone-protocol/src/nbt.rs:167-219 | what is read does not depend on what follows |
| `NbtTruncated.TruncatedIsRefused` | crates/loadstone-protocol/src/nbt.rs:167-219 | a well-formed payload that is cut off anywhere is refused |
| `NbtTruncated.TruncatedRootIsRefused` | crates/loadstone-protocol/src/nbt.rs:137-144 | so is a named root |
| `NbtSkip.SkipValue` | crates/loadstone-protocol/src/read.rs:203-248 | the measuring recursion |
| `NbtSkip.AnonymousTagEnd` | crates/loadstone-protocol/src/read.rs:134-190 | the measuring entry point |
| `NbtSkip.ReadAnonymousNbt` | crates/loadstone-protocol/src/read.rs:110-118 | takes the measured bytes |
| `NbtSkip.SkipAgrees` | crates/loadstone-protocol/src/read.rs:203-248 | skipping agrees with decoding throughout a value if and only if it holds no long array and no int array with elements |
| `NbtSkip.TagEndAgrees` | crates/loadstone-protocol/src/read.rs:134-190 | the whole tag: also a bare short is measured wrong |
| `NbtSkip.ErrorsCanCancel` | crates/loadstone-protocol/src/read.rs:203-248 | a compound whose two mismeasured arrays cancel out: it ends where it should although it is not measurable |
| `NbtSkip.SkipTakesEncoding` | crates/loadstone-protocol/src/read.rs:110-118 | an encoded measurable compound is taken exactly |
| `NbtSkip.IntArrayIsMisread` | crates/loadstone-protocol/src/read.rs:203-213 | a compound on which the two parsers differ |
| `NbtSkip.Mismeasured` | crates/loadstone-protocol/src/read.rs:134-213 | what the skipper takes a bare short, an int array and a long array for |
| `Reader.PacketReader.Take` | crates/loadstone-protocol/src/read.rs:23-33 | advances by the bytes taken, or fails without moving |
| `Reader.I32RoundTrip` | crates/loadstone-protocol/src/read.rs:61-64 | big-endian 32-bit numbers read back |
| `Reader.I64RoundTrip` | crates/loadstone-protocol/src/read.rs:66-71 | big-endian 64-bit numbers read back |
| `Packing.PackPerLong` | crates/loadstone-protocol/src/chunk.rs:104-113 | the or-and-shift loop writes the positional words |
| `Packing.PerLongRoundTrip` | crates/loadstone-protocol/src/chunk.rs:115-128 | per-long packing loses nothing at any width and length |
| `Packing.MissingWordsAreZero` | crates/loadstone-protocol/src/chunk.rs:115-128 | values whose word is missing read as zero |
| `Packing.PackSpanning` | crates/loadstone-protocol/src/chunk.rs:63-82 | the straddling loop writes one numeral |
| `Packing.UnpackSpanning` | crates/loadstone-protocol/src/chunk.rs:84-100 | the reading loop |
| `Packing.SpanningWindow` | crates/loadstone-protocol/src/chunk.rs:84-100 | each read value is the bit window of the whole array taken as one number |
| `Packing.SpanningRoundTrip` | crates/loadstone-protocol/src/chunk.rs:63-100 | spanning pack then unpack is the identity for widths 1 to 16 and every length |
| `Packing.PerLongIsSpanning` | crates/loadstone-protocol/src/chunk.rs:30-33 | whole words at a width dividing 64: per-long words are spanning words |
| `Packing.SpanningEqualsPerLong` | crates/loadstone-protocol/src/chunk.rs:30-33 | and the two schemes then write the same words |
| `VarInt.Len` | crates/loadstone-protocol/src/varint.rs:30-38 | the length loop counts the encoded bytes |
| `VarInt.Write` | crates/loadstone-protocol/src/varint.rs:40-50 | the writing loop |
| `VarInt.Read` | crates/loadstone-protocol/src/varint.rs:52-71 | the reading loop with its errors |
| `VarInt.OrByte` | crates/loadstone-protocol/src/varint.rs:52-71 | or-ing a shifted group is adding it, with the fifth byte's high bits lost |
| `VarInt.RoundTrip` | crates/loadstone-protocol/src/varint.rs:40-71 | every 32-bit value reads back, whatever follows |
| `VarInt.LengthOf` | crates/loadstone-protocol/src/varint.rs:30-38 | one to five bytes, by exact thresholds |
| `VarInt.BytesSpell` | crates/loadstone-protocol/src/varint.rs:40-50 | the bytes spell the low 32 bits in base 128, least significant first, all but the last marked |
| `VarInt.ReadSpells` | crates/loadstone-protocol/src/varint.rs:52-71 | any terminated run of at most five bytes reads as what it spells, canonical or not |
| `VarInt.RefusedRuns` | crates/loadstone-protocol/src/varint.rs:52-71 | five marked bytes are too many, fewer end too soon |
| `Codec.ReadVarIntAsync` | crates/loadstone-net/src/codec.rs:132-149 | the streaming VarInt loop |
| `Codec.ReadFrame` | crates/loadstone-net/src/codec.rs:31-81 | the frame reader with its limits and errors |
| `Codec.WriteFrame` | crates/loadstone-net/src/codec.rs:83-130 | the frame writer |
| `Codec.PacketSays` | crates/loadstone-net/src/codec.rs:92-94 | a packet is its id and its payload |
| `Codec.PlainFrame` | crates/loadstone-net/src/codec.rs:98-101 | with compression off the length is followed by the packet |
| `Codec.CompressedFrame` | crates/loadstone-net/src/codec.rs:102-125 | with compression on exactly the packets at least as long as the threshold are deflated under their length, the others follow a zero |
| `Codec.RefusedLengths` | crates/loadstone-net/src/codec.rs:38-51 | a frame whose length is negative or too large is refused as such, a cut-off one is an I/O error |
| `Codec.RefusedBodies` | crates/loadstone-net/src/codec.rs:55-76 | which compressed bodies are refused, and how |
| `Codec.FrameRoundTrip` | crates/loadstone-net/src/codec.rs:31-130 | a frame reads back whole with nothing more consumed if and only if its declared sizes are within the limit, compressed or not, at every threshold |
| `Codec.StreamRoundTrip` | crates/loadstone-net/src/codec.rs:31-130 | any sequence of such frames reads back with no bytes left |
| `LpVec3.Write` | crates/loadstone-protocol/src/packets/play.rs:1192-1224 | the writer |
| `LpVec3.Read` | crates/loadstone-protocol/src/packets/play.rs:1227-1248 | the reader |
| `LpVec3.QuantizeError` | crates/loadstone-protocol/src/packets/play.rs:1259-1271 | one component errs by at most half a step |
| `LpVec3.RoundTrip` | crates/loadstone-protocol/src/packets/play.rs:1192-1248 | consumes exactly the bytes written, tells still from moving by the first byte, recovers each component within scale/32766 |
| `LpVec3.ScaleSurvivesIff` | crates/loadstone-protocol/src/packets/play.rs:1201-1223 | the scale survives if and only if a quarter of it fits the VarInt |
| `LpVec3.ScaleIsLeast` | crates/loadstone-protocol/src/packets/play.rs:1192-1200 | still when every component is below the threshold; otherwise the scale is the least whole number none exceeds |
| `LpVec3.SixByteFormat` | crates/loadstone-protocol/src/packets/play.rs:1200-1223 | the six bytes spell markers, x, y and z in their places, each the nearest step, and the rest of the scale follows |
| `LpVec3.FullFields` | crates/loadstone-protocol/src/packets/play.rs:1267-1271 | fields beyond the last step read as full scale |
| `JavaHex.Negate` | crates/loadstone-net/src/auth.rs:89-101 | the carry loop turns a positive number into 256^n minus it |
| `JavaHex.JavaHex` | crates/loadstone-net/src/auth.rs:86-118 | denotes exactly the signed value of the bytes, in canonical form |
| `JavaHex.SignedRange` | crates/loadstone-net/src/auth.rs:86-88 | the value denoted is the two's complement reading |
| `JavaHex.CanonicalUnique` | crates/loadstone-net/src/auth.rs:86-118 | so the text is the only canonical one |
| `JavaHex.CarryStep` | crates/loadstone-net/src/auth.rs:92-100 | one byte of the carry loop |
| `Cfb8.Cipher.PushFeedback` | crates/loadstone-net/src/crypto.rs:51-61 | the register shifts by one byte |
| `Cfb8.Cipher.Transform` | crates/loadstone-net/src/crypto.rs:51-61 | in-place transformation is the mode, either direction |
| `Cfb8.EncryptIsCfb8` | crates/loadstone-net/src/crypto.rs:42-61 | the mode of NIST SP 800-38A section 6.3 with 8-bit segments, and nothing else |
| `Cfb8.DecryptEncrypt` | crates/loadstone-net/src/crypto.rs:42-61 | decryption undoes encryption |
| `Cfb8.EncryptAppend` | crates/loadstone-net/src/crypto.rs:51-61 | encrypting in pieces is encrypting at once |
| `Cfb8.DecryptAppend` | crates/loadstone-net/src/crypto.rs:51-61 | decrypting in pieces is decrypting at once |
| `Cfb8.EncryptedStream.FlushPending` | crates/loadstone-net/src/crypto.rs:88-100 | accepted bytes move from pending to wire in order |
| `Cfb8.EncryptedStream.PollWrite` | crates/loadstone-net/src/crypto.rs:148-167 | sent plus pending stays the encryption of everything offered; the whole slice is accepted unless the socket fails |
| `Cfb8.EncryptedStream.PollFlush` | crates/loadstone-net/src/crypto.rs:169-177 | flushes the pending bytes and then the socket; the answer is the socket's, and how many bytes remain is exact for every schedule |
| `Cfb8.ReadyIsFlushedIff` | crates/loadstone-net/src/crypto.rs:88-100 | when the pending bytes are reported flushed they are on the wire if and only if the last answer was not an acceptance of nothing |
| `Cfb8.ReadyIsNotFlushed` | crates/loadstone-net/src/crypto.rs:93 | a flush reported ready with a byte still pending |
| `Cfb8.EncryptedStream.PollRead` | crates/loadstone-net/src/crypto.rs:104-144 | delivered plus left over stays the decryption of everything received, and how much is handed over is exact for every schedule |
| `Cfb8.PeerReadsPrefix` | crates/loadstone-net/src/crypto.rs:88-167 | a peer decrypting any received prefix obtains a prefix of the plaintext |
| `Cfb8.ReaderDeliversPrefix` | crates/loadstone-net/src/crypto.rs:104-167 | two streams joined by a wire: what the reading end delivers is a prefix of what the writing end was offered |
| `Mobs.CollidesIsOverlap` | crates/loadstone-world/src/entity.rs:281-300 | the integer ranges are exactly the cells the box meets |
| `Mobs.Entity.NearestTarget` | crates/loadstone-world/src/entity.rs:233-245 | the loop is the fold `Nearest` |
| `Mobs.NearestIsFirstNearest` | crates/loadstone-world/src/entity.rs:233-245 | the target found is the first of those at the smallest distance, and none is found exactly when all are at the chase radius or beyond |
| `Mobs.Entity.CollidesAt` | crates/loadstone-world/src/entity.rs:281-300 | the three nested loops |
| `Mobs.Entity.TurnTo` | crates/loadstone-world/src/entity.rs:225-231 | the yaw turns to a direction long enough to have one |
| `Mobs.Entity.Move` | crates/loadstone-world/src/entity.rs:247-262 | each axis in full or not at all |
| `Mobs.Entity.Drop` | crates/loadstone-world/src/entity.rs:264-277 | falling and landing |
| `Mobs.Entity.Tick` | crates/loadstone-world/src/entity.rs:173-217 | one whole step, the flag telling whether it moved or turned included; `MobMotion` says what it means |
| `MobStore.EntityStore.Spawn` | crates/loadstone-world/src/entity.rs:340-346 | fresh ids from the base up, no two mobs sharing an object, uuid and generator drawn from seed and id |
| `MobSeed.Identity` | crates/loadstone-world/src/entity.rs:131-160 | the drawing loop gives sixteen bytes stamped as a uuid, and the generator's first state |
| `MobSeed.IsVersion4` | crates/loadstone-world/src/entity.rs:138-140 | every uuid is an RFC 4122 version 4 one, and stamping changes those six bits only |
| `MobSeed.NeverTrapped` | crates/loadstone-world/src/entity.rs:163-170 | one step of the generator is zero if and only if the state was |
| `MobSeed.KnownValues` | crates/loadstone-world/src/entity.rs:163-170 | the published first outputs of both generators |
| `MobSeed.BytesInOrder` | crates/loadstone-world/src/entity.rs:134-137 | each draw gives its most significant byte first |
| `MobSeed.SeedsDiffer` | crates/loadstone-world/src/entity.rs:133 | under another seed the same id starts from another state |
| `MobProofs.SpawnedKeepsRolling` | crates/loadstone-world/src/entity.rs:131-217 | so from whatever seed and id, a mob's generator never sticks over any number of ticks |
| `MobStore.EntityStore.Tick` | crates/loadstone-world/src/entity.rs:348-352 | every mob steps once, no id appears or disappears |
| `MobProofs.FacePoints` | crates/loadstone-world/src/entity.rs:225-231 | turning to a direction at least a millionth long makes the heading exactly that direction, and a shorter one turns nothing |
| `MobProofs.LeashStep` | crates/loadstone-world/src/entity.rs:173-217 | one tick without a chase keeps the leash, whichever axis is blocked |
| `MobProofs.LeashHolds` | crates/loadstone-world/src/entity.rs:173-217 | so does any number of ticks |
| `MobProofs.SpawnedStaysHome` | crates/loadstone-world/src/entity.rs:131-217 | from spawning on, a mob that never chases stays within the leash plus its walk speed |
| `MobProofs.PeacefulNeverChases` | crates/loadstone-world/src/entity.rs:101-104 | which peaceful mobs never do |
| `MobProofs.FreeStaysFree` | crates/loadstone-world/src/entity.rs:247-300 | a box free of solid blocks before a tick is free after it |
| `MobProofs.AlwaysFree` | crates/loadstone-world/src/entity.rs:173-300 | and after any number of ticks in an unchanging world |
| `MobMotion.StepMoves` | crates/loadstone-world/src/entity.rs:206-277 | one step as a whole: along the new yaw when walking or chasing, axis by axis, falling by gravity up to the terminal speed, stopped by what the box would meet, with the flag for having got anywhere |
| `MobMotion.ChaseTurns` | crates/loadstone-world/src/entity.rs:176-183 | a hostile mob turns to the first nearest target inside its radius and changes nothing else of its mind |
| `MobMotion.ChaseApproaches` | crates/loadstone-world/src/entity.rs:176-217 | it goes toward that target at walk speed, in full along every free axis, and an unblocked step shortens the way whenever that is more than half a step |
| `MobMotion.StraysHome` | crates/loadstone-world/src/entity.rs:198-203 | a mob that does not chase turns home and walks when it is out too far |
| `MobMotion.Wanders` | crates/loadstone-world/src/entity.rs:185-196 | otherwise it goes on as it was until a roll decides whether it walks, which way and for how long |
| `MobMotion.Kinds` | crates/loadstone-world/src/entity.rs:72-104 | boxes, speeds and hostility of the five kinds |
| `MobMotion.SpawnedAtRest` | crates/loadstone-world/src/entity.rs:142-160 | a new mob stands still at its home |

## Left out

- Floating point: mob motion, low-precision vectors and positions are exact reals; `sqrt`, `sin`,
  `cos` and `atan2` are parameters with their laws, and rounding is not modelled.
- Noise and hashing in the terrain generator: the rounded height is an arbitrary function of seed and column.
- zlib, AES, RSA, SHA-1 and the session check: zlib is an inverse pair of functions, AES any function on blocks.
- Overflow of 32-bit coordinates near their limits (`pos * 16` in the generator, `y - MIN_Y`): unbounded there;
  position arithmetic in the readers reports overflow as an error, as a checked build would stop.
- File system calls, the directory listing's other files and partially failed writes: the region directory is a
  map from region to bytes, and a save either writes all of it or is not a step.
- The spawn point and the `last_update` clock: the time is a parameter.
- Vec capacity and memory limits: a palette too long for a 63-bit index is treated as absent data.
- Player names, skins, chat, keep-alives and per-player edits: packets without a bearing on the
  entity table are one constructor, `Other`.
- Block changes on the clients: a player's own edit is written directly while older ones wait in its channel, so
  the code promises no agreement.
- Two live connections with one uuid: the registry insert replaces the first; the state machine assumes distinct ones.
- Facing, velocity, kind and uuid in the packets: spawn and sync packets carry ids and positions only; the registry
  keeps yaw and pitch.
- The mobs' shared world changing while they step: a tick sees one arbitrary set of solid blocks.
- Initial mob population and its random placement.
- Biomes, light and the whole chunk packet: the encoder writes two 16-bit counts per section and the decoder reads
  one, so the round trip is at container level.
- Lists of mixed tags and anonymous roots that are not compounds: the encodings are not decodable and are excluded
  by `NbtProofs.NamedRoundTrip` and `NbtProofs.AnonymousRoundTrip`.
- Socket errors in the cipher stream end it; only schedules of partial writes and reads are related to the plaintext.
- Fixed-layout packets, `server.properties`, registries, commands: easy members.
- WorldProofs.RunKeeps: saves stay within what a region header can count (start sectors below 2^24, lengths below
  2^32), because the sizes of zlib's output are unknown; `WorldProofs.SaveIsEnabled` meets that for every run when
  compression at most doubles its input.
- Play.ServerState.TickEntities: takes any list of mobs; `EntityTick.TickEntities` supplies the stepped ones.
- NbtSkip.TagEndAgrees: for whole lists and compounds only the direction from measurable to agreeing, because
  errors inside one can cancel out (`NbtSkip.ErrorsCanCancel`); `NbtSkip.SkipAgrees` has both directions, tag by tag.
- MobProofs.AlwaysFree: the world must not change between ticks; a block placed into a mob makes it collide.
