/** The second NBT parser: it only measures how long a tag is
    (`anonymous_tag_end`, `value_end` and `read_anonymous_nbt` of `loadstone-protocol/src/read.rs`).

    It is proved against the decoder of module `Nbt`. The two agree on every tag inside a
    value exactly when the value holds no long array and no int array with elements. */
module NbtSkip {
  import opened Machine
  import opened Options
  import opened Protocol
  import opened Reader
  import opened Nbt
  import NbtProofs

  /** `a + b` on `usize`. */
  function Add(a: nat, b: nat): (r: Result<nat>)
    ensures r.Ok? ==> r.value == a + b
    ensures a + b <= 2 * ISIZE_MAX ==> r.Ok?
  {
    if a + b >= USIZE_LIMIT then Err(Overflow) else Ok(a + b)
  }

  /** `*data.get(i).ok_or(short(i + ahead, ..))?` */
  function ByteAt(data: seq<byte>, i: nat, ahead: nat): (r: Result<byte>)
    ensures r.Ok? ==> i < |data| && r.value == data[i]
    ensures |data| <= ISIZE_MAX && i < |data| && ahead < 10 ==> r.Ok?
  {
    var needed :- Add(i, ahead);
    if i < |data| then Ok(data[i]) else Err(UnexpectedEof(needed, |data|))
  }

  /** The 16-bit length at `i`. */
  function ShortLength(data: seq<byte>, i: nat, ahead: nat): (r: Result<nat>)
    ensures r.Ok? ==> i + 2 <= |data|
    ensures r.Ok? ==> r.value == FromBigEndian(data[i..i + 2])
    ensures |data| <= ISIZE_MAX && i + 2 <= |data| && ahead < 10 ==> r.Ok?
  {
    var b0 :- ByteAt(data, i, ahead);
    var b1 :- ByteAt(data, i + 1, ahead);
    assert data[i..i + 2] == [b0, b1];
    assert [b0, b1][..1] == [b0] && [b0][..0] == [];
    assert FromBigEndian([b0]) == b0;
    Ok(b0 * 256 + b1)
  }

  /** `signed_ok` on four bytes. */
  function SignedOk(data: seq<byte>, i: nat): (r: Result<i32>)
    ensures r.Ok? ==> i + 4 <= |data| && r.value == ToI32(FromBigEndian(data[i..i + 4]))
    ensures |data| <= ISIZE_MAX && i + 4 <= |data| ==> r.Ok?
  {
    var end :- Add(i, 4);
    if |data| < end then Err(UnexpectedEof(end, |data|)) else Ok(ToI32(FromBigEndian(data[i..i + 4])))
  }

  function Room(data: seq<byte>, i: nat): nat { if i < |data| then |data| - i else 0 }

  /** `value_end`: the position just past a payload. */
  function ValueEnd(data: seq<byte>, ty: byte, start: nat): (r: Result<nat>)
    ensures r.Ok? ==> r.value >= start
    decreases Room(data, start), 2, 0
  {
    match ty
    case 0x01 => Add(start, 1)
    case 0x02 => Add(start, 2)
    case 0x03 => Add(start, 4)
    case 0x05 => Add(start, 4)
    case 0x0B => Add(start, 4)
    case 0x04 => Add(start, 8)
    case 0x06 => Add(start, 8)
    case 0x0C => Add(start, 8)
    case 0x07 =>
      var n :- SignedOk(data, start);
      Add(start + 4, AsUsize(n))
    case 0x08 =>
      var n :- ShortLength(data, start, 2);
      Add(start + 2, n)
    case 0x09 =>
      var elementTy :- ByteAt(data, start, 1);
      var n :- SignedOk(data, start + 1);
      ItemsEnd(data, elementTy, start + 5, AsUsize(n))
    case 0x0A => EntriesEnd(data, start)
    case other => Err(InvalidEnum(other))
  }

  function ItemsEnd(data: seq<byte>, ty: byte, i: nat, n: nat): (r: Result<nat>)
    ensures r.Ok? ==> r.value >= i
    decreases Room(data, i), 3, n
  {
    if n == 0 then Ok(i)
    else
      var j :- ValueEnd(data, ty, i);
      ItemsEnd(data, ty, j, n - 1)
  }

  function EntriesEnd(data: seq<byte>, i: nat): (r: Result<nat>)
    ensures r.Ok? ==> r.value >= i
    decreases Room(data, i), 1, 0
  {
    var ty :- ByteAt(data, i, 1);
    if ty == 0 then Add(i, 1)
    else
      var n :- ShortLength(data, i + 1, 3);
      var j :- Add(i + 3, n);
      var k :- ValueEnd(data, ty, j);
      EntriesEnd(data, k)
  }

  /** `anonymous_tag_end`: the end of the tag at the front, `None` for the absent-value byte. */
  function TagEnd(data: seq<byte>): (r: Result<Option<nat>>) {
    var ty :- ByteAt(data, 0, 1);
    if ty == 0 then Ok(None)
    else
      var i :- TopLevelEnd(data, ty);
      if i > |data| then Err(UnexpectedEof(i, |data|)) else Ok(Some(i))
  }

  /** Its match on the type byte, which measures a short as four bytes. */
  function TopLevelEnd(data: seq<byte>, ty: byte): Result<nat> {
    match ty
    case 0x01 => Ok(2)
    case 0x02 => Ok(5)
    case 0x03 => Ok(5)
    case 0x05 => Ok(5)
    case 0x0B => Ok(5)
    case 0x04 => Ok(9)
    case 0x06 => Ok(9)
    case 0x0C => Ok(9)
    case 0x07 =>
      var n :- SignedOk(data, 1);
      Add(5, AsUsize(n))
    case 0x08 =>
      var n :- ShortLength(data, 1, 2);
      Add(3, n)
    case 0x09 =>
      var elementTy :- ByteAt(data, 1, 1);
      var n :- SignedOk(data, 2);
      ItemsEnd(data, elementTy, 6, AsUsize(n))
    case 0x0A => EntriesEnd(data, 1)
    case other => Err(InvalidEnum(other))
  }

  // ------------------------------------------------------- the loops themselves

  method SkipValue(data: seq<byte>, ty: byte, start: nat) returns (r: Result<nat>)
    ensures r == ValueEnd(data, ty, start)
    decreases Room(data, start), 2, 0
  {
    hide ItemsEnd, EntriesEnd, FromBigEndian, ToI32;
    match ty {
      case 0x01 => r := Add(start, 1);
      case 0x02 => r := Add(start, 2);
      case 0x03 => r := Add(start, 4);
      case 0x05 => r := Add(start, 4);
      case 0x0B => r := Add(start, 4);
      case 0x04 => r := Add(start, 8);
      case 0x06 => r := Add(start, 8);
      case 0x0C => r := Add(start, 8);
      case 0x07 =>
        var n :- SignedOk(data, start);
        r := Add(start + 4, AsUsize(n));
      case 0x08 =>
        var n :- ShortLength(data, start, 2);
        r := Add(start + 2, n);
      case 0x09 =>
        var elementTy :- ByteAt(data, start, 1);
        var n :- SignedOk(data, start + 1);
        r := SkipItems(data, elementTy, start + 5, AsUsize(n));
      case 0x0A => r := SkipEntries(data, start);
      case other => r := Err(InvalidEnum(other));
    }
  }

  method SkipItems(data: seq<byte>, ty: byte, start: nat, n: nat) returns (r: Result<nat>)
    ensures r == ItemsEnd(data, ty, start, n)
    decreases Room(data, start), 3, n
  {
    hide ValueEnd;
    var i := start;
    for k := 0 to n
      invariant i >= start
      invariant ItemsEnd(data, ty, start, n) == ItemsEnd(data, ty, i, n - k)
    {
      var end := SkipValue(data, ty, i);
      i :- end;
    }
    r := Ok(i);
  }

  method SkipEntries(data: seq<byte>, start: nat) returns (r: Result<nat>)
    ensures r == EntriesEnd(data, start)
    decreases Room(data, start), 1, 0
  {
    hide ValueEnd;
    var i := start;
    while true
      invariant i >= start
      invariant EntriesEnd(data, start) == EntriesEnd(data, i)
      decreases Room(data, i)
    {
      var ty :- ByteAt(data, i, 1);
      if ty == 0 {
        return Add(i, 1);
      }
      var n :- ShortLength(data, i + 1, 3);
      var j :- Add(i + 3, n);
      var end := SkipValue(data, ty, j);
      i :- end;
    }
  }

  method AnonymousTagEnd(data: seq<byte>) returns (r: Result<Option<nat>>)
    ensures r == TagEnd(data)
  {
    hide ItemsEnd, EntriesEnd, FromBigEndian, ToI32;
    var ty :- ByteAt(data, 0, 1);
    if ty == 0 {
      return Ok(None);
    }
    var i: nat := 1;
    match ty {
      case 0x01 => i := i + 1;
      case 0x02 => i := i + 4;
      case 0x03 => i := i + 4;
      case 0x05 => i := i + 4;
      case 0x0B => i := i + 4;
      case 0x04 => i := i + 8;
      case 0x06 => i := i + 8;
      case 0x0C => i := i + 8;
      case 0x07 =>
        var n :- SignedOk(data, i);
        i :- Add(i + 4, AsUsize(n));
      case 0x08 =>
        var n :- ShortLength(data, i, 2);
        i :- Add(i + 2, n);
      case 0x09 =>
        var elementTy :- ByteAt(data, i, 1);
        i := i + 1;
        var n :- SignedOk(data, i);
        i := i + 4;
        var end := SkipItems(data, elementTy, i, AsUsize(n));
        i :- end;
      case 0x0A =>
        var end := SkipEntries(data, i);
        i :- end;
      case other => return Err(InvalidEnum(other));
    }
    if i > |data| {
      return Err(UnexpectedEof(i, |data|));
    }
    r := Ok(Some(i));
  }

  /** `read_anonymous_nbt`: the raw bytes of an optional tag. */
  method ReadAnonymousNbt(reader: PacketReader) returns (r: Result<Option<seq<byte>>>)
    requires reader.pos <= |reader.data|
    modifies reader
    ensures reader.pos <= |reader.data|
    ensures match TagEnd(reader.data[old(reader.pos)..])
            case Ok(None) => r == Ok(None) && reader.pos == old(reader.pos) + 1
            case Ok(Some(end)) => r == Ok(Some(reader.data[old(reader.pos)..old(reader.pos) + end]))
                                  && reader.pos == old(reader.pos) + end
            case Err(e) => r == Err(e)
  {
    hide TopLevelEnd;
    var end := AnonymousTagEnd(reader.data[reader.pos..]);
    var found :- end;
    match found {
      case None =>
        reader.pos := reader.pos + 1;
        r := Ok(None);
      case Some(len) =>
        var bytes := reader.Take(len);
        r := match bytes case Ok(b) => Ok(Some(b)) case Err(e) => Err(e);
    }
  }

  // ------------------------------------------------ agreement with the decoder

  /** Trees whose every tag the skipper measures correctly. */
  predicate Measurable(n: Nbt)
    decreases n
  {
    match n
    case List(items) => MeasurableItems(items)
    case Compound(entries) => MeasurableEntries(entries)
    case IntArray(v) => |v| == 0
    case LongArray(_) => false
    case _ => true
  }

  predicate MeasurableItems(items: seq<Nbt>)
    decreases items
  {
    |items| == 0 || (Measurable(items[0]) && MeasurableItems(items[1..]))
  }

  predicate MeasurableEntries(entries: seq<Entry>)
    decreases entries
  {
    |entries| == 0 || (Measurable(entries[0].value) && MeasurableEntries(entries[1..]))
  }

  /** The skipper ends where the decoder ends, on this payload and on every payload inside it. */
  ghost predicate AgreesAt(data: seq<byte>, pos: nat, ty: byte)
    requires pos <= |data| && PayloadAt(data, pos, ty).Ok?
    decreases |data| - pos, 1, 0
  {
    && ValueEnd(data, ty, pos) == Ok(PayloadAt(data, pos, ty).value.1)
    && (ty == 0x09 ==>
          var (elementTy, p) := U8At(data, pos).value;
          var (len, q) := LengthAt(data, p).value;
          AgreesOnItems(data, q, elementTy, len))
    && (ty == 0x0A ==> AgreesOnEntries(data, pos))
  }

  ghost predicate AgreesOnItems(data: seq<byte>, pos: nat, ty: byte, n: nat)
    requires pos <= |data| && ItemsAt(data, pos, ty, n).Ok?
    decreases |data| - pos, 2, n
  {
    n == 0 || (AgreesAt(data, pos, ty) && AgreesOnItems(data, PayloadAt(data, pos, ty).value.1, ty, n - 1))
  }

  ghost predicate AgreesOnEntries(data: seq<byte>, pos: nat)
    requires pos <= |data| && EntriesAt(data, pos).Ok?
    decreases |data| - pos, 0, 0
  {
    var (ty, p) := U8At(data, pos).value;
    ty == 0 ||
    (var (_, q) := NameAt(data, p).value;
     AgreesAt(data, q, ty) && AgreesOnEntries(data, PayloadAt(data, q, ty).value.1))
  }

  lemma LengthIsUsize(data: seq<byte>, pos: nat)
    requires pos <= |data| <= ISIZE_MAX && LengthAt(data, pos).Ok?
    ensures SignedOk(data, pos).Ok? && AsUsize(SignedOk(data, pos).value) == LengthAt(data, pos).value.0
  {
    hide FromBigEndian, ToI32;
  }

  lemma ShortLengthIsU16(data: seq<byte>, pos: nat, ahead: nat)
    requires pos <= |data| <= ISIZE_MAX && U16At(data, pos).Ok? && ahead < 10
    ensures ShortLength(data, pos, ahead) == Ok(U16At(data, pos).value.0)
  {
    hide FromBigEndian;
  }

  /** On one decoded payload without nested tags. */
  lemma SkipLeaf(data: seq<byte>, pos: nat, ty: byte)
    requires pos <= |data| <= ISIZE_MAX && PayloadAt(data, pos, ty).Ok? && ty != 0x09 && ty != 0x0A
    ensures ValueEnd(data, ty, pos) == Ok(PayloadAt(data, pos, ty).value.1) <==>
      Measurable(PayloadAt(data, pos, ty).value.0)
  {
    hide FromBigEndian, ToI32, Utf8, ShortLength, SignedOk;
    if ty == 0x07 || ty == 0x0B || ty == 0x0C {
      LengthIsUsize(data, pos);
    } else if ty == 0x08 {
      ShortLengthIsU16(data, pos, 2);
    }
  }

  /** Skipping agrees with decoding throughout a value exactly when the value has no long array
      and no int array with elements. */
  lemma {:induction false} SkipAgrees(data: seq<byte>, pos: nat, ty: byte)
    requires pos <= |data| <= ISIZE_MAX && PayloadAt(data, pos, ty).Ok?
    ensures AgreesAt(data, pos, ty) <==> Measurable(PayloadAt(data, pos, ty).value.0)
    decreases |data| - pos, 1, 0
  {
    if ty == 0x09 {
      SkipAgreesOnList(data, pos);
    } else if ty == 0x0A {
      SkipAgreesOnEntries(data, pos);
    } else {
      SkipLeaf(data, pos, ty);
    }
  }

  lemma {:induction false} SkipAgreesOnList(data: seq<byte>, pos: nat)
    requires pos <= |data| <= ISIZE_MAX && PayloadAt(data, pos, 0x09).Ok?
    ensures AgreesAt(data, pos, 0x09) <==> Measurable(PayloadAt(data, pos, 0x09).value.0)
    decreases |data| - pos, 0, 1
  {
    hide FromBigEndian, ToI32, LengthAt, SignedOk;
    var (elementTy, p) := U8At(data, pos).value;
    LengthIsUsize(data, p);
    var (len, q) := LengthAt(data, p).value;
    SkipAgreesOnItems(data, q, elementTy, len);
  }

  lemma {:induction false} SkipAgreesOnItems(data: seq<byte>, pos: nat, ty: byte, n: nat)
    requires pos <= |data| <= ISIZE_MAX && ItemsAt(data, pos, ty, n).Ok?
    ensures AgreesOnItems(data, pos, ty, n) <==> MeasurableItems(ItemsAt(data, pos, ty, n).value.0)
    ensures AgreesOnItems(data, pos, ty, n) ==> ItemsEnd(data, ty, pos, n) == Ok(ItemsAt(data, pos, ty, n).value.1)
    decreases |data| - pos, 2, n
  {
    hide PayloadAt, Measurable, ValueEnd;
    if n > 0 {
      SkipAgrees(data, pos, ty);
      SkipAgreesOnItems(data, PayloadAt(data, pos, ty).value.1, ty, n - 1);
    }
  }

  /** The skipper steps over a name as the decoder does. */
  lemma NameSpan(data: seq<byte>, pos: nat)
    requires pos <= |data| <= ISIZE_MAX && NameAt(data, pos).Ok?
    ensures ShortLength(data, pos, 3).Ok? && NameAt(data, pos).value.1 == pos + 2 + ShortLength(data, pos, 3).value
  {
    hide ShortLength, NumberAt, Utf8;
    ShortLengthIsU16(data, pos, 3);
  }

  lemma {:induction false} SkipAgreesOnEntries(data: seq<byte>, pos: nat)
    requires pos <= |data| <= ISIZE_MAX && EntriesAt(data, pos).Ok?
    ensures AgreesOnEntries(data, pos) <==> MeasurableEntries(EntriesAt(data, pos).value.0)
    ensures AgreesOnEntries(data, pos) ==> EntriesEnd(data, pos) == Ok(EntriesAt(data, pos).value.1)
    decreases |data| - pos, 0, 0
  {
    hide PayloadAt, Measurable, ValueEnd, ShortLength, NameAt;
    var (ty, p) := U8At(data, pos).value;
    if ty != 0 {
      NameSpan(data, p);
      var (name, q) := NameAt(data, p).value;
      SkipAgrees(data, q, ty);
      SkipAgreesOnEntries(data, PayloadAt(data, q, ty).value.1);
    }
  }

  /** The whole-tag form: whenever `read_anonymous` decodes a measurable tag other than a bare
      short, the skipper finds the same end; and among tags without nested tags those are the only
      ones it measures correctly. */
  lemma TagEndAgrees(data: seq<byte>)
    requires |data| <= ISIZE_MAX && AnonymousAt(data, 0).Ok?
    ensures var (n, end) := AnonymousAt(data, 0).value;
            && (Measurable(n) && !n.Short? ==> TagEnd(data) == Ok(Some(end)))
            && (!n.List? && !n.Compound? ==> (TagEnd(data) == Ok(Some(end)) <==> Measurable(n) && !n.Short?))
  {
    hide FromBigEndian, ToI32, Utf8, ShortLength, SignedOk, ItemsEnd, EntriesEnd, ItemsAt, EntriesAt;
    var ty := data[0];
    SkipAgrees(data, 1, ty);
    if ty == 0x07 || ty == 0x0B || ty == 0x0C {
      LengthIsUsize(data, 1);
    } else if ty == 0x08 {
      ShortLengthIsU16(data, 1, 2);
    } else if ty == 0x09 {
      LengthIsUsize(data, 2);
    }
  }

  /** Encoding a measurable compound and reading it back raw takes exactly its own bytes,
      leaving whatever follows. */
  lemma SkipTakesEncoding(n: Nbt, rest: seq<byte>)
    requires n.Compound? && WellFormed(n) && Measurable(n)
    requires |AnonymousBytes(n) + rest| <= ISIZE_MAX
    ensures TagEnd(AnonymousBytes(n) + rest) == Ok(Some(|AnonymousBytes(n)|))
  {
    NbtProofs.AnonymousRoundTrip(n, rest);
    TagEndAgrees(AnonymousBytes(n) + rest);
  }

  const ONE_INT: Nbt := Compound([Entry([], IntArray([0]))])
  const ONE_INT_BYTES: seq<byte> := [0x0A, 0x0B, 0, 0, 0, 0, 0, 1, 0, 0, 0, 0, 0]

  lemma OneIntEncoding()
    ensures AnonymousBytes(ONE_INT) == ONE_INT_BYTES && WellFormed(ONE_INT)
  {
    hide BigEndian, I32Bytes, U16Bytes;
    Bytes0And1();
    assert I32sBytes([0]) == I32Bytes(0) + I32sBytes([0][1..]);
    assert Payload(IntArray([0])) == [0, 0, 0, 1, 0, 0, 0, 0];
    assert EntriesPayload(ONE_INT.entries[1..]) == [0];
    assert WellFormedEntries(ONE_INT.entries[1..]);
  }

  /** The skipper steps over an entry with an empty name. */
  lemma UnnamedEntry(data: seq<byte>, i: nat, j: nat)
    requires i + 3 <= |data| < ISIZE_MAX && data[i] != 0 && data[i + 1] == 0 && data[i + 2] == 0
    requires ValueEnd(data, data[i], i + 3) == Ok(j)
    ensures EntriesEnd(data, i) == EntriesEnd(data, j)
  {
    hide FromBigEndian, ValueEnd;
    assert data[i + 1..i + 3] == [0, 0];
    Zeros();
    assert ShortLength(data, i + 1, 3) == Ok(0);
  }

  lemma LastEntry(data: seq<byte>, i: nat)
    requires i < |data| < ISIZE_MAX && data[i] == 0
    ensures EntriesEnd(data, i) == Ok(i + 1)
  {}

  lemma FixedWidths(data: seq<byte>, i: nat)
    requires i + 8 <= ISIZE_MAX
    ensures ValueEnd(data, 0x01, i) == Ok(i + 1)
    ensures ValueEnd(data, 0x0B, i) == Ok(i + 4) && ValueEnd(data, 0x0C, i) == Ok(i + 8)
  {}

  lemma CompoundEnd(data: seq<byte>)
    requires |data| > 0 && data[0] == 0x0A && EntriesEnd(data, 1).Ok? && EntriesEnd(data, 1).value <= |data|
    ensures TagEnd(data) == Ok(Some(EntriesEnd(data, 1).value))
  {
    hide EntriesEnd;
  }

  lemma OneIntSkipped()
    ensures TagEnd(ONE_INT_BYTES) == Ok(Some(9))
  {
    hide EntriesEnd, ValueEnd, TagEnd;
    var data := ONE_INT_BYTES;
    FixedWidths(data, 4);
    UnnamedEntry(data, 1, 8);
    LastEntry(data, 8);
    CompoundEnd(data);
  }

  /** A compound holding an int array with one element: the skipper stops inside it. */
  lemma IntArrayIsMisread()
    ensures AnonymousAt(AnonymousBytes(ONE_INT), 0) == Ok((ONE_INT, 13))
    ensures TagEnd(AnonymousBytes(ONE_INT)) == Ok(Some(9))
  {
    hide AnonymousAt, TagEnd, AnonymousBytes, WellFormed;
    OneIntEncoding();
    OneIntSkipped();
    NbtProofs.AnonymousRoundTrip(ONE_INT, []);
    assert ONE_INT_BYTES + [] == ONE_INT_BYTES;
  }

  const TWO_ERRORS: seq<byte> := [0x0A, 0x0C, 0, 0, 0, 0, 0, 1, 0, 0, 0, 0, 1, 0, 0, 5, 0]

  /** The tree those bytes are: one long array of one element. */
  const ONE_LONG: Nbt := Compound([Entry([], LongArray([0x0100_0005]))])

  lemma LongBytes()
    ensures I64Bytes(0x0100_0005) == [0, 0, 0, 0, 1, 0, 0, 5]
  {
    hide BigEndian;
    NextByte(0x0100_0005, 7);
    NextByte(0x1_0000, 6);
    NextByte(0x100, 5);
    NextByte(1, 4);
    ZeroBytes(4);
  }

  lemma OneLongEncoding()
    ensures AnonymousBytes(ONE_LONG) == TWO_ERRORS
  {
    hide BigEndian, I32Bytes, I64Bytes, U16Bytes;
    Bytes0And1();
    LongBytes();
    var longs: seq<i64> := [0x0100_0005];
    assert longs[1..] == [];
    assert I64sBytes(longs) == I64Bytes(longs[0]) + I64sBytes(longs[1..]);
    assert Payload(LongArray(longs)) == [0, 0, 0, 1, 0, 0, 0, 0, 1, 0, 0, 5];
    assert EntriesPayload(ONE_LONG.entries[1..]) == [0];
  }

  lemma OneLongIsWellFormed()
    ensures WellFormed(ONE_LONG) && !Measurable(ONE_LONG)
  {
    assert WellFormedEntries(ONE_LONG.entries[1..]);
  }

  lemma TwoErrorsSkipped()
    ensures TagEnd(TWO_ERRORS) == Ok(Some(17))
  {
    hide EntriesEnd, ValueEnd, TagEnd;
    var data := TWO_ERRORS;
    FixedWidths(data, 4);
    FixedWidths(data, 15);
    UnnamedEntry(data, 1, 12);
    UnnamedEntry(data, 12, 16);
    LastEntry(data, 16);
    CompoundEnd(data);
  }

  /** Errors inside a compound can cancel out: on these bytes both parsers end at 17, though the
      compound holds a long array that the skipper takes for 8 bytes. */
  lemma ErrorsCanCancel()
    ensures AnonymousAt(TWO_ERRORS, 0) == Ok((ONE_LONG, 17)) && !Measurable(ONE_LONG)
    ensures TagEnd(TWO_ERRORS) == Ok(Some(17))
  {
    hide AnonymousAt, TagEnd, AnonymousBytes, WellFormed, Measurable;
    OneLongEncoding();
    OneLongIsWellFormed();
    TwoErrorsSkipped();
    NbtProofs.AnonymousRoundTrip(ONE_LONG, []);
    assert TWO_ERRORS + [] == TWO_ERRORS;
  }

  lemma NextByte(v: nat, k: nat)
    ensures BigEndian(v, k + 1) == BigEndian(v / 256, k) + [v % 256]
  {}

  lemma {:induction false} ZeroBytes(k: nat)
    ensures BigEndian(0, k) == seq(k, _ => 0)
  {
    hide BigEndian;
    if k > 0 {
      ZeroBytes(k - 1);
      NextByte(0, k - 1);
    } else {
      NoBytes(0);
    }
  }

  lemma NoBytes(v: nat)
    ensures BigEndian(v, 0) == []
  {}

  lemma Bytes0And1()
    ensures I32Bytes(0) == [0, 0, 0, 0] && I32Bytes(1) == [0, 0, 0, 1] && U16Bytes(0) == [0, 0]
  {
    hide BigEndian;
    ZeroBytes(2);
    ZeroBytes(3);
    ZeroBytes(4);
    NextByte(1, 3);
  }

  lemma Zeros()
    ensures FromBigEndian([0, 0]) == 0
  {
    assert [0, 0][..1] == [0] && [0][..0] == [];
  }

  /** What the skipper takes the tags it mismeasures for: a short on its own for four bytes, an int array for four
      and a long array for eight, whatever they hold. */
  lemma Mismeasured(data: seq<byte>, start: nat)
    requires 9 <= |data| && start + 8 <= ISIZE_MAX
    ensures data[0] == 0x02 || data[0] == 0x0B ==> TagEnd(data) == Ok(Some(5))
    ensures data[0] == 0x0C ==> TagEnd(data) == Ok(Some(9))
    ensures ValueEnd(data, 0x0B, start) == Ok(start + 4) && ValueEnd(data, 0x0C, start) == Ok(start + 8)
  {}
}
