/** Minecraft VarInts: seven bits per byte, least significant first
    (`loadstone-protocol/src/varint.rs`). */
module VarInt {
  import opened Machine
  import opened Arith
  import opened Protocol

  /** The canonical bytes of an unsigned number: its base-128 digits, all but the last marked. */
  function Groups(v: nat): (s: seq<byte>)
    ensures |s| >= 1
  {
    if v < 0x80 then [v] else [v % 0x80 + 0x80] + Groups(v / 0x80)
  }

  /** The encoding of a signed 32-bit value: the groups of its low 32 bits. */
  function Bytes(value: int): (s: seq<byte>)
    ensures |s| >= 1
  {
    Groups(value % 0x1_0000_0000)
  }

  /** `varint_len`: counts shifts until at most seven bits remain. */
  method Len(value: i32) returns (n: nat)
    ensures n == |Bytes(value)|
  {
    var v := value % 0x1_0000_0000;
    n := 1;
    while v >= 0x80 // v & !0x7F != 0
      invariant v >= 0
      invariant n + |Groups(v)| == |Bytes(value)| + 1
    {
      v := v / 0x80;
      n := n + 1;
    }
  }

  method Write(out: PacketWriter, value: i32)
    modifies out
    ensures out.buf == old(out.buf) + Bytes(value)
  {
    var v := value % 0x1_0000_0000;
    while v >= 0x80 // v & !0x7F != 0
      invariant v >= 0
      invariant out.buf + Groups(v) == old(out.buf) + Bytes(value)
    {
      out.WriteU8(v % 0x80 + 0x80); // (v & 0x7F) | 0x80
      v := v / 0x80;
    }
    out.WriteU8(v);
  }

  /** The weight of the `k`-th byte of a VarInt. */
  function Weight(k: nat): nat
    requires k < 5
  {
    if k == 0 then 1 else if k == 1 then 0x80 else if k == 2 then 0x4000 else if k == 3 then 0x20_0000 else 0x1000_0000
  }

  /** What reading from byte `index` on yields when `k` bytes have given `value` so far. */
  function ReadFrom(bytes: seq<byte>, index: nat, k: nat, value: nat): (r: Result<(i32, nat)>)
    requires k < 5 && index <= |bytes| && value < Weight(k)
    ensures r.Ok? ==> index < r.value.1 <= |bytes|
    decreases 5 - k
  {
    if index == |bytes| then Err(UnexpectedEof(index + 1, |bytes|))
    else
      var byte := bytes[index];
      var value' := (value + byte % 0x80 * Weight(k)) % 0x1_0000_0000;
      if byte < 0x80 then Ok((ToI32(value'), index + 1))
      else if k == 4 then Err(VarIntTooBig)
      else ReadFrom(bytes, index + 1, k + 1, value')
  }

  /** The VarInt at `pos`: its value and the position just past it. */
  function ReadAt(bytes: seq<byte>, pos: nat): (r: Result<(i32, nat)>)
    requires pos <= |bytes|
    ensures r.Ok? ==> pos < r.value.1 <= |bytes|
  {
    ReadFrom(bytes, pos, 0, 0)
  }

  /** `a << position` on 32-bit words. */
  function Shl32(a: nat, position: nat): nat { a * Pow2(position) % 0x1_0000_0000 }

  lemma WeightIsShift(k: nat)
    requires k < 5
    ensures Pow2(7 * k) == Weight(k)
  {
    hide Pow2;
    Pow2Values();
    assert Pow2(0) == 1 by { Pow2Zero(); }
    Pow2Add(7, 7);
    Pow2Add(14, 7);
    Pow2Add(21, 7);
  }

  /** Seven bits shifted by less than 28 stay inside the word, below the next weight. */
  lemma GroupFits(value: nat, low: nat, k: nat)
    requires k < 4 && value < Weight(k) && low < 0x80
    ensures low * Weight(k) % 0x1_0000_0000 == low * Weight(k)
    ensures (value + low * Weight(k)) % 0x1_0000_0000 == value + low * Weight(k) < Weight(k + 1)
  {
    if k == 0 {
    } else if k == 1 {
    } else if k == 2 {
    } else {
    }
  }

  /** The fifth group keeps four bits. */
  lemma TopGroup(value: nat, low: nat)
    requires value < 0x1000_0000 && low < 0x80
    ensures low * 0x1000_0000 % 0x1_0000_0000 == low % 16 * 0x1000_0000
    ensures (value + low * 0x1000_0000) % 0x1_0000_0000 == value + low % 16 * 0x1000_0000
  {}

  lemma OrByte(value: nat, low: nat, k: nat)
    requires k < 5 && value < Weight(k) && low < 0x80
    ensures Or(value, Shl32(low, 7 * k)) == (value + low * Weight(k)) % 0x1_0000_0000
    ensures k < 4 ==> (value + low * Weight(k)) % 0x1_0000_0000 < Weight(k + 1)
  {
    hide Pow2, Or;
    WeightIsShift(k);
    if k < 4 {
      hide Weight;
      GroupFits(value, low, k);
      OrDisjoint(value, low, 7 * k);
    } else {
      TopGroup(value, low);
      OrDisjoint(value, low % 16, 28);
    }
  }

  lemma FirstWeight()
    ensures Weight(0) == 1
  {}

  /** `read_varint`, shared in shape by `read_varint_async`. */
  method Read(bytes: seq<byte>, pos: nat) returns (r: Result<(i32, nat)>)
    requires pos <= |bytes|
    ensures r == ReadAt(bytes, pos)
  {
    hide Or, Shl32, Weight, ToI32;
    FirstWeight();
    var value: nat, position: nat, index: nat := 0, 0, pos;
    ghost var k := 0;
    while true
      invariant k < 5 && position == 7 * k && pos <= index <= |bytes| && value < Weight(k)
      invariant ReadFrom(bytes, index, k, value) == ReadAt(bytes, pos)
      decreases 5 - k
    {
      if index >= |bytes| {
        return Err(UnexpectedEof(index + 1, |bytes|));
      }
      var byte := bytes[index];
      index := index + 1;
      OrByte(value, byte % 0x80, k);
      value := Or(value, Shl32(byte % 0x80, position));
      if byte < 0x80 {
        return Ok((ToI32(value), index));
      }
      position := position + 7;
      if position >= 32 {
        return Err(VarIntTooBig);
      }
      k := k + 1;
    }
  }

  /** Peeling one group off a number. */
  lemma WeightStep(k: nat, v: nat)
    requires k < 5
    ensures v * Weight(k) >= 0 && (v * Weight(k) < 0x1_0000_0000 && v >= 0x80 ==> k < 4)
    ensures k < 4 ==> v * Weight(k) == v % 0x80 * Weight(k) + v / 0x80 * Weight(k + 1)
    ensures k < 4 ==> v % 0x80 * Weight(k) + Weight(k) <= Weight(k + 1)
  {
    if k == 0 {
    } else if k == 1 {
    } else if k == 2 {
    } else if k == 3 {
    } else {
    }
  }

  lemma {:induction false} ReadGroups(bytes: seq<byte>, index: nat, k: nat, value: nat, v: nat, total: nat)
    requires k < 5 && index <= |bytes| && value < Weight(k)
    requires At(bytes, index, Groups(v)) && total == value + v * Weight(k) < 0x1_0000_0000
    ensures ReadFrom(bytes, index, k, value) == Ok((ToI32(total), index + |Groups(v)|))
    decreases 5 - k
  {
    hide Weight, ToI32, ReadFrom;
    var low := v % 0x80;
    var value' := OneGroup(k, value, v, total);
    assert bytes[index] == bytes[index..index + |Groups(v)|][0];
    ReadStep(bytes, index, k, value, low, value');
    if v >= 0x80 {
      AtSplit(bytes, index, [low + 0x80], Groups(v / 0x80));
      ReadGroups(bytes, index + 1, k + 1, value', v / 0x80, total);
    }
  }

  /** The value after the next group, still on the way to the same total. */
  lemma OneGroup(k: nat, value: nat, v: nat, total: nat) returns (value': nat)
    requires k < 5 && value < Weight(k) && total == value + v * Weight(k) < 0x1_0000_0000
    ensures value' == value + v % 0x80 * Weight(k) <= total
    ensures v < 0x80 ==> value' == total
    ensures v >= 0x80 ==> k < 4 && value' < Weight(k + 1) && total == value' + v / 0x80 * Weight(k + 1)
  {
    hide Weight;
    WeightStep(k, v);
    MulPositiveOrZero(v % 0x80, Weight(k));
    value' := value + v % 0x80 * Weight(k);
    if v >= 0x80 {
      MulPositiveOrZero(v / 0x80, Weight(k + 1));
    } else {
      assert v % 0x80 == v;
    }
  }

  lemma ReadStep(bytes: seq<byte>, index: nat, k: nat, value: nat, low: nat, value': nat)
    requires k < 5 && index < |bytes| && value < Weight(k) && low == bytes[index] % 0x80
    requires value' == value + low * Weight(k) < 0x1_0000_0000
    ensures bytes[index] < 0x80 ==> ReadFrom(bytes, index, k, value) == Ok((ToI32(value'), index + 1))
    ensures bytes[index] >= 0x80 && k < 4 && value' < Weight(k + 1) ==>
      ReadFrom(bytes, index, k, value) == ReadFrom(bytes, index + 1, k + 1, value')
  {
    hide Weight, ToI32;
    SmallMod(value', 0x1_0000_0000);
  }

  /** Every 32-bit value is read back from its encoding, wherever it stands and whatever follows. */
  lemma RoundTrip(bytes: seq<byte>, pos: nat, value: i32)
    requires At(bytes, pos, Bytes(value))
    ensures ReadAt(bytes, pos) == Ok((value, pos + |Bytes(value)|))
  {
    hide Groups, ReadFrom;
    ReadGroups(bytes, pos, 0, 0, value % 0x1_0000_0000, value % 0x1_0000_0000);
  }

  /** An encoding takes one to five bytes, and `n` bytes exactly when the low 32 bits need that many groups. */
  lemma {:induction false} LengthOf(value: i32)
    ensures 1 <= |Bytes(value)| <= 5
    ensures forall k :: 1 <= k < 5 ==> (|Bytes(value)| <= k <==> value % 0x1_0000_0000 < Weight(k))
  {
    var v := value % 0x1_0000_0000;
    assert |Groups(v)| == if v < 0x80 then 1 else 1 + |Groups(v / 0x80)|;
    var v1 := v / 0x80;
    assert |Groups(v1)| == if v1 < 0x80 then 1 else 1 + |Groups(v1 / 0x80)|;
    var v2 := v1 / 0x80;
    assert |Groups(v2)| == if v2 < 0x80 then 1 else 1 + |Groups(v2 / 0x80)|;
    var v3 := v2 / 0x80;
    assert |Groups(v3)| == if v3 < 0x80 then 1 else 1 + |Groups(v3 / 0x80)|;
    var v4 := v3 / 0x80;
    assert v4 < 0x80;
  }

  // ------------------------------------------------------------------- the bytes

  /** The number that the low seven bits of the bytes spell, least significant first. */
  function Spelt(s: seq<byte>): nat { if |s| == 0 then 0 else s[0] % 0x80 + 0x80 * Spelt(s[1..]) }

  /** Only the last byte has its high bit clear. */
  predicate Terminated(s: seq<byte>) { |s| > 0 && forall i :: 0 <= i < |s| ==> (s[i] < 0x80 <==> i == |s| - 1) }

  lemma {:induction false} GroupsSpell(v: nat)
    ensures Spelt(Groups(v)) == v && Terminated(Groups(v))
    ensures |Groups(v)| > 1 ==> Groups(v)[|Groups(v)| - 1] != 0
  {
    if v < 0x80 {
      assert [v][1..] == [];
    } else {
      GroupsSpell(v / 0x80);
      var s := Groups(v);
      assert s[1..] == Groups(v / 0x80);
      forall i | 0 <= i < |s|
        ensures s[i] < 0x80 <==> i == |s| - 1
      {
        assert i > 0 ==> s[i] == s[1..][i - 1];
      }
      assert s[|s| - 1] == s[1..][|s| - 2];
    }
  }

  /** The encoding spells the value's low 32 bits in base 128, least significant group first, marks all bytes but
      the last, and has no empty group at the end. */
  lemma BytesSpell(value: i32)
    ensures Spelt(Bytes(value)) == value % 0x1_0000_0000 && Terminated(Bytes(value))
    ensures |Bytes(value)| > 1 ==> Bytes(value)[|Bytes(value)| - 1] != 0
  {
    GroupsSpell(value % 0x1_0000_0000);
  }

  /** Reading any terminated run of at most five bytes, canonical or not, gives what it spells, cut to 32 bits. */
  lemma {:induction false} ReadFromSpells(bytes: seq<byte>, index: nat, end: nat, k: nat, value: nat, v: nat,
      total: nat)
    requires index < end <= |bytes| && k + (end - index) <= 5 && value < Weight(k)
    requires Terminated(bytes[index..end]) && v == Spelt(bytes[index..end]) && total == value + v * Weight(k)
    ensures ReadFrom(bytes, index, k, value) == Ok((ToI32(total), end))
    decreases end - index
  {
    hide Weight, ToI32, ReadFrom, Spelt;
    var s := bytes[index..end];
    SpeltCons(s);
    assert s[0] == bytes[index] && s[1..] == bytes[index + 1..end];
    if |s| == 1 {
      SpeltNone();
      ReadLast(bytes, index, k, value, total);
    } else {
      assert forall i :: 0 <= i < |s| - 1 ==> s[1..][i] == s[i + 1];
      SplitGroup(s[0] % 0x80, Spelt(s[1..]));
      var value' := NextValue(k, value, v, total);
      ReadStep(bytes, index, k, value, v % 0x80, value');
      ReadFromSpells(bytes, index + 1, end, k + 1, value', v / 0x80, total);
    }
  }

  lemma SplitGroup(low: nat, rest: nat)
    requires low < 0x80
    ensures (low + 0x80 * rest) % 0x80 == low && (low + 0x80 * rest) / 0x80 == rest
  {}

  /** The value after a group that is not the fifth. */
  lemma NextValue(k: nat, value: nat, v: nat, total: nat) returns (value': nat)
    requires k < 4 && value < Weight(k) && total == value + v * Weight(k)
    ensures value' == value + v % 0x80 * Weight(k) < Weight(k + 1) <= 0x1_0000_0000
    ensures total == value' + v / 0x80 * Weight(k + 1)
  {
    WeightsFit(k + 1);
    hide Weight;
    WeightStep(k, v);
    MulPositiveOrZero(v % 0x80, Weight(k));
    value' := value + v % 0x80 * Weight(k);
  }

  lemma SpeltCons(s: seq<byte>)
    requires |s| > 0
    ensures Spelt(s) == s[0] % 0x80 + 0x80 * Spelt(s[1..])
  {}

  lemma SpeltNone()
    ensures Spelt([]) == 0
  {}

  lemma WeightsFit(k: nat)
    requires k < 5
    ensures Weight(k) < 0x1_0000_0000
  {}

  lemma ReadLast(bytes: seq<byte>, index: nat, k: nat, value: nat, total: nat)
    requires k < 5 && index < |bytes| && value < Weight(k) && bytes[index] < 0x80
    requires total == value + bytes[index] * Weight(k)
    ensures ReadFrom(bytes, index, k, value) == Ok((ToI32(total), index + 1))
  {
    hide Weight;
    CutBefore(total);
  }

  lemma CutBefore(n: nat)
    ensures ToI32(n % 0x1_0000_0000) == ToI32(n)
  {}

  lemma ReadSpells(bytes: seq<byte>, pos: nat, end: nat)
    requires pos < end <= |bytes| && end - pos <= 5 && Terminated(bytes[pos..end])
    ensures ReadAt(bytes, pos) == Ok((ToI32(Spelt(bytes[pos..end])), end))
  {
    hide ReadFrom, Spelt, ToI32;
    FirstWeight();
    ReadFromSpells(bytes, pos, end, 0, 0, Spelt(bytes[pos..end]), Spelt(bytes[pos..end]));
  }

  /** Bytes that are all marked are refused: five of them are too many, fewer end too soon. */
  lemma {:induction false} RefusedFrom(bytes: seq<byte>, index: nat, k: nat, value: nat)
    requires k < 5 && index <= |bytes| && value < Weight(k)
    requires forall i :: index <= i < |bytes| && i < index + 5 - k ==> bytes[i] >= 0x80
    ensures ReadFrom(bytes, index, k, value)
         == if |bytes| - index >= 5 - k then Err(VarIntTooBig) else Err(UnexpectedEof(|bytes| + 1, |bytes|))
    decreases 5 - k
  {
    hide Weight;
    if index < |bytes| && k < 4 {
      var low := bytes[index] % 0x80;
      MulPositiveOrZero(low, Weight(k));
      StaysBelow(value, low, k);
      RefusedFrom(bytes, index + 1, k + 1, (value + low * Weight(k)) % 0x1_0000_0000);
    }
  }

  lemma StaysBelow(value: nat, low: nat, k: nat)
    requires k < 4 && value < Weight(k) && low < 0x80
    ensures 0 <= (value + low * Weight(k)) % 0x1_0000_0000 < Weight(k + 1)
  {
    hide Or, Pow2;
    OrByte(value, low, k);
  }

  lemma RefusedRuns(bytes: seq<byte>, pos: nat)
    requires pos <= |bytes| && forall i :: pos <= i < |bytes| && i < pos + 5 ==> bytes[i] >= 0x80
    ensures ReadAt(bytes, pos)
         == if |bytes| - pos >= 5 then Err(VarIntTooBig) else Err(UnexpectedEof(|bytes| + 1, |bytes|))
  {
    hide ReadFrom;
    RefusedFrom(bytes, pos, 0, 0);
  }
}
