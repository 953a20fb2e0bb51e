/** The low-precision vector of entity packets (`write_lp_vec3` and `read_lp_vec3` of
    `loadstone-protocol/src/packets/play.rs`), in exact reals. */
module LpVec3 {
  import opened Machine
  import opened Arith
  import opened Reals
  import opened Protocol
  import opened Reader
  import VarInt

  /** Largest component below which a vector counts as still. */
  const LP_MIN: real := 0.00003051944088384301
  const MAX_QUANTIZED: int := 32766
  /** The clamp on every component. */
  const LP_MAX: real := 17179869183.0

  datatype Vec = Vec(x: real, y: real, z: real)

  function Max(a: real, b: real): (m: real)
    ensures m >= a && m >= b && (m == a || m == b)
  {
    if a < b then b else a
  }

  function Ceil(r: real): (n: int)
    ensures n as real - 1.0 < r <= n as real
  {
    -((-r).Floor)
  }

  function Clamp(r: real): (c: real)
    ensures -LP_MAX <= c <= LP_MAX
    ensures -LP_MAX <= r <= LP_MAX ==> c == r
  {
    if r < -LP_MAX then -LP_MAX else if r > LP_MAX then LP_MAX else r
  }

  function Sanitize(v: Vec): Vec { Vec(Clamp(v.x), Clamp(v.y), Clamp(v.z)) }

  /** The largest magnitude among the clamped components. */
  function Largest(v: Vec): (m: real)
    ensures 0.0 <= m <= LP_MAX
  {
    var s := Sanitize(v);
    Max(Max(Abs(s.x), Abs(s.y)), Abs(s.z))
  }

  predicate Still(v: Vec) { Largest(v) < LP_MIN }

  function Scale(v: Vec): (n: nat)
    ensures !Still(v) ==> n >= 1
    ensures Largest(v) <= n as real <= LP_MAX
  {
    var n := Ceil(Largest(v));
    assert n as real - 1.0 < LP_MAX;
    n
  }

  /** Quantises a component in -1..1 to 15 bits, rounding half up. */
  function PackLp(value: real): (q: nat)
    ensures -1.0 <= value <= 1.0 ==> q <= MAX_QUANTIZED
  {
    var r := ((value * 0.5 + 0.5) * 32766.0 + 0.5).Floor;
    if r < 0 then 0 else r
  }

  /** A 15-bit field scaled back to -1..1. */
  function Unquantise(quantized: nat): real { Back(if quantized < MAX_QUANTIZED then quantized else MAX_QUANTIZED) }

  function Back(quantized: nat): real { quantized as real * 2.0 / 32766.0 - 1.0 }

  /** Three marker bits: the low two bits of the scale, and whether a VarInt carries the rest. */
  function Markers(scale: nat): (m: nat)
    ensures m < 8
    ensures m % 4 == scale % 4 && (m / 4 == 1 <==> scale > 3)
    ensures scale >= 1 ==> m >= 1
  {
    if scale > 3 then scale % 4 + 4 else scale
  }

  function Packed(v: Vec): (p: nat)
    requires !Still(v)
  {
    var s, scale := Sanitize(v), Scale(v) as real;
    Markers(Scale(v)) + PackLp(s.x / scale) * 0x8 + PackLp(s.y / scale) * 0x4_0000 + PackLp(s.z / scale) * 0x2_0000_0000
  }

  /** `(scale / 4.0) as i32`: rounds toward zero and saturates. */
  function ScaleRest(scale: nat): (n: i32) { if scale / 4 < 0x8000_0000 then scale / 4 else 0x7FFF_FFFF }

  // The parts of a packed vector: three 15-bit fields above three marker bits.

  function FieldX(packed: nat): (q: nat) { packed / 0x8 % 0x8000 }

  function FieldY(packed: nat): (q: nat) { packed / 0x4_0000 % 0x8000 }

  function FieldZ(packed: nat): (q: nat) { packed / 0x2_0000_0000 % 0x8000 }

  // The same six bytes as they travel: two little-endian, then four big-endian.

  function First(packed: nat): byte { packed % 0x100 }

  function Second(packed: nat): byte { packed / 0x100 % 0x100 }

  function High(packed: nat): u32 { packed / 0x1_0000 % 0x1_0000_0000 }

  function Joined(high: nat, second: byte, first: byte): nat { high * 0x1_0000 + second * 0x100 + first }

  function LowScale(first: byte): nat { first % 4 }

  predicate Continued(first: byte) { first / 4 % 2 == 1 }

  function PackedBytes(p: nat): (b: seq<byte>)
    ensures |b| == 6
  {
    [First(p), Second(p)] + BigEndian(High(p), 4)
  }

  function Bytes(v: Vec): seq<byte> {
    if Still(v) then [0]
    else PackedBytes(Packed(v)) + (if Scale(v) > 3 then VarInt.Bytes(ScaleRest(Scale(v))) else [])
  }

  function VecAt(data: seq<byte>, pos: nat): (r: Result<(Vec, nat)>)
    requires pos <= |data|
    ensures r.Ok? ==> pos < r.value.1 <= |data|
  {
    var (a, p) :- U8At(data, pos);
    if a == 0 then Ok((Vec(0.0, 0.0, 0.0), p))
    else
      var (b, q) :- U8At(data, p);
      var (high, t) :- U32At(data, q);
      var packed := Joined(high, b, a);
      if Continued(a) then
        var (rest, end) :- VarInt.ReadAt(data, t);
        Ok((Scaled(packed, LowScale(a) + rest * 4), end))
      else Ok((Scaled(packed, LowScale(a)), t))
  }

  function Scaled(packed: nat, scale: int): Vec {
    Vec(Component(FieldX(packed), scale as real), Component(FieldY(packed), scale as real),
        Component(FieldZ(packed), scale as real))
  }

  function Component(quantized: nat, scale: real): real { Unquantise(quantized) * scale }

  /** The error that quantising allows. */
  function Tolerance(scale: real): real { scale / 32766.0 }

  // ------------------------------------------------------------------ the code

  method Write(out: PacketWriter, v: Vec)
    modifies out
    ensures out.buf == old(out.buf) + Bytes(v)
  {
    hide BigEndian, VarInt.Bytes, PackLp, First, Second, High;
    var s := Sanitize(v);
    var max := Max(Max(Abs(s.x), Abs(s.y)), Abs(s.z));
    if max < LP_MIN {
      out.WriteU8(0);
      return;
    }
    var scale := Ceil(max);
    var needsContinuation := scale > 3;
    var markers := if needsContinuation then scale % 4 + 4 else scale;
    var packed := markers + PackLp(s.x / scale as real) * 0x8 + PackLp(s.y / scale as real) * 0x4_0000
      + PackLp(s.z / scale as real) * 0x2_0000_0000;
    out.WriteU8(First(packed));
    out.WriteU8(Second(packed));
    out.WriteBytes(BigEndian(High(packed), 4));
    if needsContinuation {
      VarInt.Write(out, ScaleRest(scale));
    }
  }

  method Read(reader: PacketReader) returns (r: Result<Vec>)
    requires reader.pos <= |reader.data|
    modifies reader
    ensures reader.pos <= |reader.data| && Follows(r, reader.pos, VecAt(reader.data, old(reader.pos)))
  {
    hide Scaled, U32At, VarInt.ReadAt;
    var a :- reader.ReadU8();
    if a == 0 {
      return Ok(Vec(0.0, 0.0, 0.0));
    }
    var b :- reader.ReadU8();
    var high :- reader.ReadF32(); // four bytes, big-endian
    var packed := Joined(high, b, a);
    var scale: int := LowScale(a);
    if Continued(a) {
      var rest :- reader.ReadVarInt();
      scale := scale + (rest as int) * 4;
    }
    r := Ok(Scaled(packed, scale));
  }

  // ------------------------------------------------------------------ the laws

  /** One component: quantising and back errs by at most half a step of 2/32766. */
  lemma QuantizeError(value: real)
    requires -1.0 <= value <= 1.0
    ensures var q := PackLp(value);
            q <= MAX_QUANTIZED && -1.0 / 32766.0 <= Back(q) - value <= 1.0 / 32766.0
  {
    var u := (value * 0.5 + 0.5) * 32766.0;
    assert 0.0 <= u <= 32766.0;
    var q := (u + 0.5).Floor;
    assert q as real <= u + 0.5 < q as real + 1.0;
  }

  lemma Ratio(c: real, scale: real)
    requires scale > 0.0 && -scale <= c <= scale
    ensures -1.0 <= c / scale <= 1.0 && c / scale * scale == c
  {
    var d := c / scale;
    assert d * scale == c;
    if d > 1.0 {
      RealMulPositive(d - 1.0, scale);
    } else if d < -1.0 {
      RealMulPositive(-1.0 - d, scale);
    }
  }

  lemma RealMulPositive(a: real, b: real)
    requires a > 0.0 && b > 0.0
    ensures a * b > 0.0
  {}

  ghost predicate Within(a: real, b: real, e: real) { -e <= a - b <= e }

  lemma ComponentError(c: real, s: real)
    requires s > 0.0 && -s <= c <= s
    ensures PackLp(c / s) <= MAX_QUANTIZED
    ensures Within(Back(PackLp(c / s)) * s, c, s / 32766.0)
  {
    hide PackLp, Back;
    Ratio(c, s);
    QuantizeError(c / s);
    Rescale(Back(PackLp(c / s)), c / s, s);
  }

  lemma Rescale(back: real, value: real, s: real)
    requires s > 0.0 && -1.0 / 32766.0 <= back - value <= 1.0 / 32766.0
    ensures Within(back * s, value * s, s / 32766.0)
  {
    ScaleError(back - value, s);
    assert (back - value) * s == back * s - value * s;
  }

  lemma ScaleError(e: real, s: real)
    requires s > 0.0 && -1.0 / 32766.0 <= e <= 1.0 / 32766.0
    ensures -(s / 32766.0) <= e * s <= s / 32766.0
  {
    assert (1.0 / 32766.0 - e) * s >= 0.0;
    assert (e + 1.0 / 32766.0) * s >= 0.0;
  }

  lemma LowField(p: nat, m: nat, x: nat, yz: nat)
    requires m < 8 && x < 0x8000 && p == (yz * 0x8000 + x) * 8 + m
    ensures FieldX(p) == x && First(p) % 8 == m
  {
    DivMod(yz * 0x8000 + x, m, 8);
    DivMod(yz, x, 0x8000);
    ModProduct(p, 8, 32);
  }

  lemma MiddleField(p: nat, low: nat, y: nat, z: nat)
    requires low < 0x4_0000 && y < 0x8000 && p == (z * 0x8000 + y) * 0x4_0000 + low
    ensures FieldY(p) == y
  {
    DivMod(z * 0x8000 + y, low, 0x4_0000);
    DivMod(z, y, 0x8000);
  }

  lemma HighField(p: nat, low: nat, z: nat)
    requires low < 0x2_0000_0000 && z < 0x8000 && p == z * 0x2_0000_0000 + low
    ensures FieldZ(p) == z && p < 0x1_0000_0000_0000
  {
    DivMod(z, low, 0x2_0000_0000);
    SmallMod(z, 0x8000);
  }

  /** The fields of a packed vector do not overlap. */
  lemma Fields(m: nat, x: nat, y: nat, z: nat)
    requires m < 8 && x < 0x8000 && y < 0x8000 && z < 0x8000
    ensures var p := m + x * 0x8 + y * 0x4_0000 + z * 0x2_0000_0000;
      && p < 0x1_0000_0000_0000
      && FieldX(p) == x && FieldY(p) == y && FieldZ(p) == z && First(p) % 8 == m
  {
    hide FieldX, FieldY, FieldZ, First;
    var p := m + x * 0x8 + y * 0x4_0000 + z * 0x2_0000_0000;
    LowField(p, m, x, y + z * 0x8000);
    MiddleField(p, m + x * 8, y, z);
    HighField(p, m + x * 8 + y * 0x4_0000, z);
  }

  /** Reassembling the six bytes gives the packed number back. */
  lemma Reassemble(p: nat)
    requires p < 0x1_0000_0000_0000
    ensures Joined(High(p), Second(p), First(p)) == p
  {
    Euclid(p, 0x100);
    Euclid(p / 0x100, 0x100);
    DivDiv(p, 0x100, 0x100);
    QuotientBelow(p, 0x1_0000, 0x1_0000_0000);
    SmallMod(p / 0x1_0000, 0x1_0000_0000);
  }

  lemma LargestBounds(v: Vec)
    requires !Still(v)
    ensures var s, scale := Sanitize(v), Scale(v) as real;
      && scale >= 1.0
      && -scale <= s.x <= scale && -scale <= s.y <= scale && -scale <= s.z <= scale
  {
    hide Clamp, Ceil;
  }

  /** What the fields of a packed vector hold. */
  lemma PackedFacts(v: Vec)
    requires !Still(v)
    ensures var s, scale, p := Sanitize(v), Scale(v) as real, Packed(v);
      && p < 0x1_0000_0000_0000 && First(p) % 8 == Markers(Scale(v))
      && FieldX(p) == PackLp(s.x / scale) <= MAX_QUANTIZED
      && FieldY(p) == PackLp(s.y / scale) <= MAX_QUANTIZED
      && FieldZ(p) == PackLp(s.z / scale) <= MAX_QUANTIZED
  {
    hide PackLp, Markers, Sanitize, Scale, Still, Within, Back, FieldX, FieldY, FieldZ, First;
    LargestBounds(v);
    var s, scale := Sanitize(v), Scale(v) as real;
    ComponentError(s.x, scale);
    ComponentError(s.y, scale);
    ComponentError(s.z, scale);
    Fields(Markers(Scale(v)), PackLp(s.x / scale), PackLp(s.y / scale), PackLp(s.z / scale));
  }

  /** The first byte of a moving vector is not zero, and it carries the low scale bits and the marker. */
  lemma MarkerBits(first: byte, scale: nat)
    requires scale >= 1 && first % 8 == Markers(scale)
    ensures first != 0 && LowScale(first) == scale % 4 && (Continued(first) <==> scale > 3)
  {}

  /** Reading the six bytes of a packed number that are not followed by anything of interest. */
  lemma PackedBytesBack(data: seq<byte>, pos: nat, p: nat)
    requires p < 0x1_0000_0000_0000 && At(data, pos, PackedBytes(p))
    ensures U8At(data, pos) == Ok((First(p), pos + 1)) && U8At(data, pos + 1) == Ok((Second(p), pos + 2))
    ensures U32At(data, pos + 2) == Ok((High(p), pos + 6))
  {
    hide BigEndian, First, Second, High, U32At, I32Bytes;
    var high := BigEndian(High(p), 4);
    AtSplit(data, pos, [First(p), Second(p)], high);
    assert data[pos] == data[pos..pos + 2][0] && data[pos + 1] == data[pos..pos + 2][1];
    HighBytes(p);
    U32RoundTrip(data, pos + 2, High(p));
  }

  lemma HighBytes(p: nat)
    ensures I32Bytes(High(p)) == BigEndian(High(p), 4)
  {
    hide High, BigEndian;
    SmallMod(High(p), 0x1_0000_0000);
  }

  /** What the reader makes of a moving vector: exactly the bytes written, the quantised components,
      and a scale whose VarInt part may have saturated. */
  lemma ReadMoving(data: seq<byte>, pos: nat, v: Vec)
    requires !Still(v) && At(data, pos, Bytes(v))
    ensures VecAt(data, pos) == Ok((Scaled(Packed(v), ScaleRead(Scale(v))), pos + |Bytes(v)|))
  {
    hide Still, Packed, PackedBytes, Scale, VarInt.Bytes, VarInt.ReadAt, Scaled, First, Second, High, Joined, LowScale,
         Continued, Markers, U8At, U32At, ScaleRest, PackLp, FieldX, FieldY, FieldZ;
    var p, scale := Packed(v), Scale(v);
    var rest := if scale > 3 then VarInt.Bytes(ScaleRest(scale)) else [];
    AtSplit(data, pos, PackedBytes(p), rest);
    PackedFacts(v);
    Reassemble(p);
    PackedBytesBack(data, pos, p);
    MarkerBits(First(p), scale);
    if scale > 3 {
      VarInt.RoundTrip(data, pos + 6, ScaleRest(scale));
    }
  }

  /** The scale the reader puts together. */
  function ScaleRead(scale: nat): int { if scale > 3 then scale % 4 + ScaleRest(scale) * 4 else scale % 4 }

  /** The shared scale survives exactly when a quarter of it fits the VarInt. */
  lemma ScaleSurvivesIff(scale: nat)
    ensures ScaleRead(scale) == scale <==> scale / 4 < 0x8000_0000
  {}

  /** Writing then reading consumes exactly the bytes written and never takes a moving vector for a
      still one; each clamped component comes back within scale / 32766 when a quarter of the scale
      fits an `i32`, and a still vector comes back as zero. */
  lemma RoundTrip(data: seq<byte>, pos: nat, v: Vec)
    requires At(data, pos, Bytes(v))
    ensures pos < |data| && VecAt(data, pos).Ok? && VecAt(data, pos).value.1 == pos + |Bytes(v)|
    ensures Still(v) <==> data[pos] == 0
    ensures Still(v) ==> VecAt(data, pos).value.0 == Vec(0.0, 0.0, 0.0)
    ensures !Still(v) && Scale(v) / 4 < 0x8000_0000 ==> Close(VecAt(data, pos).value.0, Sanitize(v), Scale(v))
  {
    hide Still, Packed, Scale, Scaled, Sanitize, Close, ScaleRead, VarInt.Bytes, VarInt.ReadAt, PackedBytes, U32At,
         Joined, LowScale, Continued;
    if Still(v) {
      assert data[pos] == data[pos..pos + 1][0];
    } else {
      FirstByte(data, pos, v);
      ReadMoving(data, pos, v);
      ScaleSurvivesIff(Scale(v));
      MovingWithin(v);
    }
  }

  /** Every component within the quantisation error of its scale. */
  ghost predicate Close(r: Vec, s: Vec, scale: nat) {
    var e := Tolerance(scale as real);
    Within(r.x, s.x, e) && Within(r.y, s.y, e) && Within(r.z, s.z, e)
  }

  lemma FirstByte(data: seq<byte>, pos: nat, v: Vec)
    requires !Still(v) && At(data, pos, Bytes(v))
    ensures pos < |data| && data[pos] != 0
  {
    hide Still, Packed, Scale, VarInt.Bytes, First, Second, High, Markers, BigEndian, ScaleRest, FieldX, FieldY, FieldZ,
         PackLp;
    assert Bytes(v)[0] == First(Packed(v));
    assert data[pos] == data[pos..pos + |Bytes(v)|][0];
    PackedFacts(v);
    LargestBounds(v);
    MarkerBits(First(Packed(v)), Scale(v));
  }

  lemma MovingWithin(v: Vec)
    requires !Still(v)
    ensures Close(Scaled(Packed(v), Scale(v)), Sanitize(v), Scale(v))
  {
    hide Still, Packed, Scale, Sanitize, Within, PackLp, Component, Tolerance, FieldX, FieldY, FieldZ, First, Markers;
    LargestBounds(v);
    PackedFacts(v);
    var s, scale, p := Sanitize(v), Scale(v) as real, Packed(v);
    FieldWithin(FieldX(p), s.x, scale);
    FieldWithin(FieldY(p), s.y, scale);
    FieldWithin(FieldZ(p), s.z, scale);
  }

  lemma FieldWithin(q: nat, c: real, scale: real)
    requires scale > 0.0 && -scale <= c <= scale && q == PackLp(c / scale) <= MAX_QUANTIZED
    ensures Within(Component(q, scale), c, Tolerance(scale))
  {
    hide PackLp, Back;
    ComponentError(c, scale);
    assert Unquantise(q) == Back(q);
  }

  // ------------------------------------------------------------------ the format

  /** Six bytes as one number: the first two least significant first, the other four most significant first. */
  function SixBytes(b: seq<byte>): nat
    requires |b| >= 6
  {
    b[0] + b[1] * 0x100 + FromBigEndian(b[2..6]) * 0x1_0000
  }

  /** `q` is the step of 1/32766 that lies nearest to where `c` stands between `-scale` and `scale`. */
  ghost predicate NearestStep(q: nat, c: real, scale: real)
    requires scale > 0.0
  {
    && q <= MAX_QUANTIZED
    && -0.5 <= q as real - (c / scale * 0.5 + 0.5) * 32766.0 <= 0.5
  }

  lemma StepOf(c: real, scale: real)
    requires scale > 0.0 && -scale <= c <= scale
    ensures NearestStep(PackLp(c / scale), c, scale)
  {
    Ratio(c, scale);
    var u := (c / scale * 0.5 + 0.5) * 32766.0;
    assert 0.0 <= u <= 32766.0;
    var q := (u + 0.5).Floor;
    assert q as real <= u + 0.5 < q as real + 1.0;
  }

  /** A vector is still when every clamped component is below the threshold, and its scale is the least whole number
      that no component exceeds. */
  lemma ScaleIsLeast(v: Vec)
    ensures var s, scale := Sanitize(v), Scale(v) as real;
      && (Still(v) <==> Abs(s.x) < LP_MIN && Abs(s.y) < LP_MIN && Abs(s.z) < LP_MIN)
      && Abs(s.x) <= scale && Abs(s.y) <= scale && Abs(s.z) <= scale
      && (Abs(s.x) > scale - 1.0 || Abs(s.y) > scale - 1.0 || Abs(s.z) > scale - 1.0)
  {
    hide Sanitize;
  }

  /** `n` is made of three marker bits and x, y and z in fifteen bits each; the markers are the low two bits of the
      scale and whether a VarInt with the rest of it follows. */
  ghost predicate Spells(n: nat, v: Vec, m: nat, x: nat, y: nat, z: nat)
    requires Scale(v) > 0
  {
    var s, scale := Sanitize(v), Scale(v);
    && n == m + x * 0x8 + y * 0x4_0000 + z * 0x2_0000_0000
    && m < 8 && m % 4 == scale % 4 && (m >= 4 <==> scale > 3)
    && NearestStep(x, s.x, scale as real) && NearestStep(y, s.y, scale as real) && NearestStep(z, s.z, scale as real)
  }

  /** What a moving vector looks like: six bytes that spell it, and the rest of its scale. */
  lemma SixByteFormat(v: Vec)
    requires !Still(v)
    ensures |Bytes(v)| >= 6 && Scale(v) > 0
    ensures exists m, x, y, z :: Spells(SixBytes(Bytes(v)), v, m, x, y, z)
    ensures Bytes(v)[6..] == if Scale(v) > 3 then VarInt.Bytes(ScaleRest(Scale(v))) else []
  {
    hide Still, Scale, Sanitize, PackLp, PackedBytes, VarInt.Bytes, ScaleRest, NearestStep, Markers, SixBytes;
    LargestBounds(v);
    var s, scale := Sanitize(v), Scale(v) as real;
    StepOf(s.x, scale);
    StepOf(s.y, scale);
    StepOf(s.z, scale);
    PackedIsSmall(v);
    SixBytesOf(Packed(v), Bytes(v)[6..]);
    assert Bytes(v) == PackedBytes(Packed(v)) + Bytes(v)[6..];
    assert Spells(Packed(v), v, Markers(Scale(v)), PackLp(s.x / scale), PackLp(s.y / scale), PackLp(s.z / scale)) by {
      MarkersAre(Scale(v));
    }
  }

  lemma MarkersAre(scale: nat)
    ensures var m := Markers(scale); m < 8 && m % 4 == scale % 4 && (m >= 4 <==> scale > 3)
  {}

  lemma PackedIsSmall(v: Vec)
    requires !Still(v)
    ensures Packed(v) < 0x1_0000_0000_0000
  {
    PackedFacts(v);
  }

  lemma SixBytesOf(p: nat, rest: seq<byte>)
    requires p < 0x1_0000_0000_0000
    ensures SixBytes(PackedBytes(p) + rest) == p
  {
    hide First, Second, High, BigEndian, FromBigEndian, Joined;
    var b := PackedBytes(p) + rest;
    assert b[2..6] == BigEndian(High(p), 4);
    Pow256Values();
    BigEndianRoundTrip(High(p), 4);
    Reassemble(p);
    JoinedIs(High(p), Second(p), First(p));
  }

  lemma JoinedIs(high: nat, second: byte, first: byte)
    ensures Joined(high, second, first) == first + second * 0x100 + high * 0x1_0000
  {}

  /** Reading is clamped: the two fields beyond the last step mean the full scale too. */
  lemma FullFields()
    ensures Unquantise(0) == -1.0 && Unquantise(16383) == 0.0 && Unquantise(32766) == 1.0 && Unquantise(32767) == 1.0
  {}
}
