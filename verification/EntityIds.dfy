/** Entity ids (`loadstone-world/src/entity.rs`): players count up from zero, mobs from far above. */
module EntityIds {
  const MOB_ID_BASE: int := 1_000_000
}
