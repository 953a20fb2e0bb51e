/** The palette both encoders build: every state once, in order of first appearance
    (`write_paletted_container` of `encode.rs` and `block_states_to_nbt` of `anvil.rs`). */
module Palette {
  import opened Machine

  function PaletteOf(states: seq<u16>): (palette: seq<u16>)
    ensures |palette| <= |states|
  {
    if |states| == 0 then []
    else
      var before := PaletteOf(states[..|states| - 1]);
      var last := states[|states| - 1];
      if last in before then before else before + [last]
  }

  /** No state twice, and exactly the states that occur. */
  lemma {:induction false} PaletteIsExact(states: seq<u16>)
    ensures forall i, j :: 0 <= i < j < |PaletteOf(states)| ==> PaletteOf(states)[i] != PaletteOf(states)[j]
    ensures forall s :: s in PaletteOf(states) <==> s in states
  {
    if |states| > 0 {
      var init, last := states[..|states| - 1], states[|states| - 1];
      PaletteIsExact(init);
      assert states == init + [last];
    }
  }

  method BuildPalette(states: seq<u16>) returns (palette: seq<u16>)
    ensures palette == PaletteOf(states)
  {
    palette := [];
    for i := 0 to |states|
      invariant palette == PaletteOf(states[..i])
    {
      assert states[..i + 1][..i] == states[..i];
      if states[i] !in palette {
        palette := palette + [states[i]];
      }
    }
    assert states[..|states|] == states;
  }

  /** `palette.iter().position(..).unwrap()`. */
  function IndexOf(palette: seq<u16>, state: u16): (k: nat)
    requires state in palette
    ensures k < |palette| && palette[k] == state
  {
    if palette[0] == state then 0 else 1 + IndexOf(palette[1..], state)
  }

  function Indices(states: seq<u16>, palette: seq<u16>): (indices: seq<nat>)
    requires forall s :: s in states ==> s in palette
    ensures |indices| == |states|
    ensures forall i :: 0 <= i < |states| ==> indices[i] < |palette| && palette[indices[i]] == states[i]
  {
    seq(|states|, i requires 0 <= i < |states| => IndexOf(palette, states[i]))
  }

  /** `palette.get(index).copied().unwrap_or(AIR)` for every index. */
  function Resolve(palette: seq<u16>, indices: seq<nat>): (states: seq<u16>)
    ensures |states| == |indices|
  {
    seq(|indices|, i requires 0 <= i < |indices| => if indices[i] < |palette| then palette[indices[i]] else 0)
  }

  lemma ResolveIndices(states: seq<u16>, palette: seq<u16>)
    requires forall s :: s in states ==> s in palette
    ensures Resolve(palette, Indices(states, palette)) == states
  {}

  /** A palette of at most one entry: the states are all alike. */
  lemma UniformPalette(states: seq<u16>)
    requires |PaletteOf(states)| == 1
    ensures forall i :: 0 <= i < |states| ==> states[i] == PaletteOf(states)[0]
  {
    hide PaletteOf;
    PaletteIsExact(states);
    forall i | 0 <= i < |states|
      ensures states[i] == PaletteOf(states)[0]
    {
      assert states[i] in PaletteOf(states);
    }
  }

  lemma EmptyPalette(states: seq<u16>)
    ensures |PaletteOf(states)| == 0 <==> |states| == 0
  {
    PaletteIsExact(states);
    if |states| > 0 {
      assert states[0] in PaletteOf(states);
    }
  }

  /** `a` turns up before any `b` does. */
  ghost predicate ComesFirst(states: seq<u16>, a: u16, b: u16) { exists p :: FirstAt(states, a, b, p) }

  ghost predicate FirstAt(states: seq<u16>, a: u16, b: u16, p: int) {
    0 <= p < |states| && states[p] == a && forall q :: 0 <= q <= p ==> states[q] != b
  }

  /** The palette is in order of first appearance. */
  lemma {:induction false} PaletteInOrder(states: seq<u16>, i: nat, j: nat)
    requires i < j < |PaletteOf(states)|
    ensures ComesFirst(states, PaletteOf(states)[i], PaletteOf(states)[j])
    decreases |states|
  {
    var init, last := states[..|states| - 1], states[|states| - 1];
    var before := PaletteOf(init);
    PaletteIsExact(init);
    assert states == init + [last];
    var a, b := PaletteOf(states)[i], PaletteOf(states)[j];
    if j < |before| {
      PaletteInOrder(init, i, j);
      var p :| FirstAt(init, a, b, p);
      assert FirstAt(states, a, b, p);
    } else {
      assert b == last && b !in init && a in init;
      var p :| 0 <= p < |init| && init[p] == a;
      assert FirstAt(states, a, b, p);
    }
  }
}
