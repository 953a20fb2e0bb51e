/** How a mob's uuid and its random generator come out of the world seed (`Entity::new`, `next_u32` and
    `splitmix64` of `loadstone-world/src/entity.rs`). */
module MobSeed {
  const GOLDEN: bv64 := 0x9E37_79B9_7F4A_7C15

  function XorRight30(z: bv64): bv64 { z ^ (z >> 30) }

  function XorRight27(z: bv64): bv64 { z ^ (z >> 27) }

  function XorRight31(z: bv64): bv64 { z ^ (z >> 31) }

  /** `splitmix64` draws from the state after the step. */
  function Mix(state: bv64): bv64 {
    XorRight31(XorRight27(XorRight30(state) * 0xBF58_476D_1CE4_E5B9) * 0x94D0_49BB_1331_11EB)
  }

  function IdMask(id: int): bv64 { (id % 0x1_0000_0000_0000_0000) as bv64 * GOLDEN }

  function Masked(seed: bv64, mask: bv64): bv64 { seed ^ mask }

  function FirstState(seed: bv64, id: int): bv64 { Masked(seed, IdMask(id)) }

  function AddGolden(state: bv64): bv64 { state + GOLDEN }

  /** The state after `draws` draws. */
  function StateAfter(seed: bv64, id: int, draws: nat): bv64 {
    if draws == 0 then FirstState(seed, id) else AddGolden(StateAfter(seed, id, draws - 1))
  }

  function LowByte(v: bv64): bv8 { (v & 0xFF) as bv8 }

  /** `to_be_bytes`. */
  function BytesOf(v: bv64): (bytes: seq<bv8>)
    ensures |bytes| == 8
  {
    [LowByte(v >> 56), LowByte(v >> 48), LowByte(v >> 40), LowByte(v >> 32),
     LowByte(v >> 24), LowByte(v >> 16), LowByte(v >> 8), LowByte(v)]
  }

  function Drawn(seed: bv64, id: int, draws: nat): (bytes: seq<bv8>)
    ensures |bytes| == 8 * draws
  {
    if draws == 0 then [] else Drawn(seed, id, draws - 1) + BytesOf(Mix(StateAfter(seed, id, draws)))
  }

  /** Two draws of eight bytes, with version and variant stamped in. */
  function UuidOf(seed: bv64, id: int): (uuid: seq<bv8>)
    ensures |uuid| == 16
  {
    Stamped(Drawn(seed, id, 2))
  }

  function Stamped(raw: seq<bv8>): (uuid: seq<bv8>)
    requires |raw| == 16
    ensures |uuid| == 16
  {
    raw[6 := (raw[6] & 0x0F) | 0x40][8 := (raw[8] & 0x3F) | 0x80]
  }

  /** What is left of the state seeds the mob's own generator. */
  function FirstRng(seed: bv64, id: int): bv64 { Odd(StateAfter(seed, id, 2)) }

  function Odd(state: bv64): bv64 { state | 1 }

  /** Every uuid is one of RFC 4122 version 4, and stamping touches six bits only. */
  lemma IsVersion4(raw: seq<bv8>)
    requires |raw| == 16
    ensures Stamped(raw)[6] >> 4 == 4 && Stamped(raw)[8] >> 6 == 2
    ensures Stamped(raw)[6] & 0x0F == raw[6] & 0x0F && Stamped(raw)[8] & 0x3F == raw[8] & 0x3F
    ensures forall i :: 0 <= i < 16 && i != 6 && i != 8 ==> Stamped(raw)[i] == raw[i]
  {}

  /** The uuid and the generator of a new mob. */
  method Identity(seed: bv64, id: int) returns (uuid: seq<bv8>, rng: bv64)
    ensures uuid == UuidOf(seed, id) && rng == FirstRng(seed, id)
  {
    hide Mix, BytesOf, FirstState, AddGolden, Stamped, Odd;
    var state := FirstState(seed, id);
    var raw: seq<bv8> := [];
    for k := 0 to 2
      invariant state == StateAfter(seed, id, k) && raw == Drawn(seed, id, k)
    {
      state := AddGolden(state);
      raw := raw + BytesOf(Mix(state));
    }
    uuid := Stamped(raw);
    rng := Odd(state);
  }

  // --------------------------------------------------------------- the generator

  function XorLeft13(r: bv64): bv64 { r ^ (r << 13) }

  function XorRight7(r: bv64): bv64 { r ^ (r >> 7) }

  function XorLeft17(r: bv64): bv64 { r ^ (r << 17) }

  /** xorshift64. */
  function NextRng(r: bv64): bv64 { XorLeft17(XorRight7(XorLeft13(r))) }

  lemma Left13KeepsNonZero(r: bv64)
    ensures XorLeft13(r) == 0 <==> r == 0
  {}

  lemma Right7KeepsNonZero(r: bv64)
    ensures XorRight7(r) == 0 <==> r == 0
  {}

  lemma Left17KeepsNonZero(r: bv64)
    ensures XorLeft17(r) == 0 <==> r == 0
  {}

  /** Zero is the generator's only trap, and it is never entered from outside. */
  lemma NeverTrapped(r: bv64)
    ensures NextRng(r) == 0 <==> r == 0
  {
    hide XorLeft13, XorRight7, XorLeft17;
    Left13KeepsNonZero(r);
    Right7KeepsNonZero(XorLeft13(r));
    Left17KeepsNonZero(XorRight7(XorLeft13(r)));
  }

  lemma StartsOutside(seed: bv64, id: int)
    ensures FirstRng(seed, id) != 0
  {
    hide StateAfter;
    var s := StateAfter(seed, id, 2);
    assert (s | 1) & 1 == 1;
  }

  /** Published first outputs: xorshift64 from one, and splitmix64 from zero. */
  lemma KnownValues()
    ensures NextRng(1) == 0x4082_2041
    ensures Mix(AddGolden(0)) == 0xE220_A839_7B1D_CDAF
    ensures Mix(AddGolden(AddGolden(0))) == 0x6E78_9E6A_A1B9_65F4
  {}

  /** The most significant byte comes first. */
  lemma BytesInOrder()
    ensures BytesOf(0x0102_0304_0506_0708) == [1, 2, 3, 4, 5, 6, 7, 8]
  {}

  /** The same id under different seeds starts from different states. */
  lemma SeedsDiffer(a: bv64, b: bv64, id: int)
    ensures FirstState(a, id) == FirstState(b, id) <==> a == b
  {
    hide IdMask, Masked;
    SameMask(a, b, IdMask(id));
  }

  lemma SameMask(a: bv64, b: bv64, c: bv64)
    ensures Masked(a, c) == Masked(b, c) <==> a == b
  {}
}
