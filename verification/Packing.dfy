/** Packing small numbers into 64-bit words (`loadstone-protocol/src/chunk.rs`,
    `pack_indices` and `pack_heightmap` of `encode.rs`, `pack_palette` of `anvil.rs`).

    The reference definition of both schemes is positional: a word, or the whole
    word array, is a numeral whose digits are the packed values. */
module Packing {
  import opened Machine
  import opened Arith

  const WORD: nat := 0x1_0000_0000_0000_0000

  /** `word as i64` for a whole array. */
  function AsLongs(words: seq<nat>): (longs: seq<i64>)
    ensures |longs| == |words|
  {
    seq(|words|, i requires 0 <= i < |words| => ToI64(words[i]))
  }

  /** `long as u64` for a whole array. */
  function AsWords(longs: seq<i64>): (words: seq<nat>)
    ensures |words| == |longs| && AreDigits(words, WORD)
  {
    seq(|longs|, i requires 0 <= i < |longs| => ToU64(longs[i]))
  }

  lemma WordsSurviveTheCast(words: seq<nat>)
    requires AreDigits(words, WORD)
    ensures AsWords(AsLongs(words)) == words
  {
    forall i | 0 <= i < |words|
      ensures AsWords(AsLongs(words))[i] == words[i]
    {
      assert AsLongs(words)[i] == ToI64(words[i]);
    }
  }

  /** The low `bits` bits of every value: the digits that are packed. */
  function Masked(values: seq<nat>, bits: nat): (ds: seq<nat>)
    ensures |ds| == |values| && AreDigits(ds, Pow2(bits))
    ensures forall i :: 0 <= i < |ds| ==> ds[i] == values[i] % Pow2(bits)
  {
    hide Pow2;
    var low: nat -> nat := v => v % Pow2(bits);
    seq(|values|, i requires 0 <= i < |values| => low(values[i]))
  }

  lemma MaskedIsIdentity(values: seq<nat>, bits: nat)
    requires AreDigits(values, Pow2(bits))
    ensures Masked(values, bits) == values
  {
    hide Pow2;
    forall i | 0 <= i < |values|
      ensures Masked(values, bits)[i] == values[i]
    {
      SmallMod(values[i], Pow2(bits));
    }
  }

  function Min(a: nat, b: nat): nat { if a < b then a else b }

  // ------------------------------------------------------------ per long

  /** Word `j` of the per-long scheme, when only the first `upTo` values are present:
      the numeral of values `j * perLong ..` in base `2^bits`. */
  function PerLongWord(ds: seq<nat>, bits: nat, perLong: nat, j: nat, upTo: nat): nat
    requires upTo <= |ds|
  {
    MulPositiveOrZero(j, perLong);
    FromDigits(ds[Min(j * perLong, upTo)..Min(j * perLong + perLong, upTo)], Pow2(bits))
  }

  /** The per-long word array. */
  function PerLongWords(values: seq<nat>, bits: nat): (words: seq<nat>)
    requires 1 <= bits < 64
    ensures |words| == DivCeil(|values|, 64 / bits)
    ensures forall j :: 0 <= j < |words| ==>
      words[j] == PerLongWord(Masked(values, bits), bits, 64 / bits, j, |values|)
  {
    hide FromDigits, Pow2;
    seq(DivCeil(|values|, 64 / bits),
      j requires 0 <= j => PerLongWord(Masked(values, bits), bits, 64 / bits, j, |values|))
  }

  lemma OtherSlot(i: nat, p: nat, j: nat)
    requires p > 0 && j != i / p
    ensures j * p + p <= i || j * p > i
  {
    Euclid(i, p);
    MulAdd(p, j, 1);
    MulAdd(p, i / p, 1);
    if j < i / p {
      MulMono(j + 1, i / p, p);
    } else {
      MulMono(i / p + 1, j, p);
    }
  }

  lemma SlotsFit(i: nat, n: nat, p: nat)
    requires p > 0 && i < n
    ensures 0 <= i / p < DivCeil(n, p)
  {
    var q, c := i / p, (n + p - 1) / p;
    Euclid(i, p);
    Euclid(n + p - 1, p);
    MulAdd(p, c, 1);
    MulAdd(p, q, 1);
    if c <= q {
      MulMono(c + 1, q + 1, p);
    }
  }

  lemma BitPosition(bits: nat, s: nat)
    requires 1 <= bits < 64 && s < 64 / bits
    ensures 0 <= s * bits <= s * bits + bits <= 64
    ensures Pow2(s * bits) == Pow(Pow2(bits), s)
  {
    hide Pow;
    Euclid(64, bits);
    MulAdd(bits, s, 1);
    MulMono(s + 1, 64 / bits, bits);
    Pow2Mul(bits, s);
    MulAssoc(1, bits, s);
  }

  /** Or-ing a shifted value above the bits already present is addition. */
  lemma OrShifted(word: nat, v: nat, k: nat)
    requires word < Pow2(k) && v * Pow2(k) < WORD
    ensures Or(word, Shl64(v, k)) == word + v * Pow2(k)
  {
    hide Pow, Or, Pow2;
    SmallMod(v * Pow2(k), WORD);
    OrDisjoint(word, v, k);
  }

  lemma PerLongWordAt(ds: seq<nat>, bits: nat, p: nat, q: nat, s: nat, i: nat, upTo: nat)
    requires i == q * p + s && s < p && i <= upTo <= i + 1 <= |ds|
    ensures 0 <= i - s && PerLongWord(ds, bits, p, q, upTo) == FromDigits(ds[i - s..upTo], Pow2(bits))
  {
    hide FromDigits, Pow2;
    MulPositiveOrZero(q, p);
  }

  /** Value `i`, in slot `s` of word `q`, is the next digit of its word. */
  lemma PerLongNext(ds: seq<nat>, bits: nat, p: nat, q: nat, s: nat, i: nat)
    requires 1 <= bits < 64 && p == 64 / bits && i == q * p + s && s < p
    requires i < |ds| && AreDigits(ds, Pow2(bits))
    ensures 0 <= s * bits && PerLongWord(ds, bits, p, q, i) < Pow2(s * bits)
    ensures PerLongWord(ds, bits, p, q, i + 1) == PerLongWord(ds, bits, p, q, i) + ds[i] * Pow2(s * bits) < WORD
  {
    hide Pow, FromDigits, Pow2, PerLongWord;
    PerLongWordAt(ds, bits, p, q, s, i, i);
    PerLongWordAt(ds, bits, p, q, s, i, i + 1);
    BitPosition(bits, s);
    PerLongDigits(ds, Pow2(bits), i - s, i);
    BoundWord(FromDigits(ds[i - s..i + 1], Pow2(bits)), bits, s);
  }

  lemma PerLongDigits(ds: seq<nat>, base: nat, lo: nat, i: nat)
    requires lo <= i < |ds| && AreDigits(ds, base)
    ensures FromDigits(ds[lo..i], base) < Pow(base, i - lo)
    ensures FromDigits(ds[lo..i + 1], base)
      == FromDigits(ds[lo..i], base) + ds[i] * Pow(base, i - lo) < Pow(base, i - lo + 1)
  {
    hide Pow, FromDigits;
    var d := ds[i];
    assert ds[lo..i + 1] == ds[lo..i] + [d];
    DigitsAppend(ds[lo..i], [d], base);
    DigitsSingle(d, base);
    DigitsBound(ds[lo..i], base);
    DigitsBound(ds[lo..i + 1], base);
    MulAssoc(1, d, Pow(base, i - lo));
  }

  /** One step of the packing loop. */
  lemma PerLongStep(values: seq<nat>, bits: nat, p: nat, q: nat, s: nat, i: nat, word: nat)
    requires 1 <= bits < 64 && p == 64 / bits && i == q * p + s && s < p && i < |values|
    requires word == PerLongWord(Masked(values, bits), bits, p, q, i)
    ensures 0 <= s * bits
    ensures Or(word, Shl64(And(values[i], Mask(bits)), s * bits))
         == PerLongWord(Masked(values, bits), bits, p, q, i + 1)
    ensures PerLongWord(Masked(values, bits), bits, p, q, i + 1) < WORD
  {
    hide Pow, FromDigits, Or, And, Mask, Pow2, Masked, PerLongWord, Shl64;
    PerLongNext(Masked(values, bits), bits, p, q, s, i);
    AndMask(values[i], bits);
    OrShifted(word, Masked(values, bits)[i], s * bits);
  }

  lemma BoundWord(n: nat, bits: nat, s: nat)
    requires 1 <= bits < 64 && s < 64 / bits && n < Pow(Pow2(bits), s + 1)
    ensures n < WORD
  {
    BitPosition(bits, s);
    Pow2Mul(bits, s + 1);
    MulAdd(bits, s, 1);
    Pow2Monotone(bits * (s + 1), 64);
    Pow2Values();
  }

  lemma PerLongOther(ds: seq<nat>, bits: nat, p: nat, j: nat, i: nat)
    requires p > 0 && i < |ds| && j != i / p
    ensures PerLongWord(ds, bits, p, j, i + 1) == PerLongWord(ds, bits, p, j, i)
  {
    hide FromDigits, Pow2;
    OtherSlot(i, p, j);
    var a := j * p;
    assert ds[Min(a, i + 1)..Min(a + p, i + 1)] == ds[Min(a, i)..Min(a + p, i)];
  }

  /** Packs values so that each word holds whole values and none straddles. */
  method PackPerLong(values: seq<nat>, bits: nat) returns (longs: seq<i64>)
    requires 1 <= bits < 64
    ensures longs == AsLongs(PerLongWords(values, bits))
  {
    hide FromDigits, Pow2, Or, And, Shl64, Mask, Masked, PerLongWord;
    var perLong := 64 / bits;
    ghost var ds := Masked(values, bits);
    var words: seq<nat> := seq(DivCeil(|values|, perLong), _ => 0);
    forall j | 0 <= j < |words|
      ensures PerLongWord(ds, bits, perLong, j, 0) == 0
    {
      PerLongEmpty(ds, bits, perLong, j);
    }
    for i := 0 to |values|
      invariant |words| == DivCeil(|values|, perLong)
      invariant forall j :: 0 <= j < |words| ==> words[j] == PerLongWord(ds, bits, perLong, j, i)
    {
      SlotsFit(i, |values|, perLong);
      Euclid(i, perLong);
      PerLongStep(values, bits, perLong, i / perLong, i % perLong, i, words[i / perLong]);
      forall j | 0 <= j < |words| && j != i / perLong
        ensures PerLongWord(ds, bits, perLong, j, i + 1) == PerLongWord(ds, bits, perLong, j, i)
      {
        PerLongOther(ds, bits, perLong, j, i);
      }
      words := words[i / perLong := Or(words[i / perLong], Shl64(And(values[i], Mask(bits)), (i % perLong) * bits))];
    }
    assert words == PerLongWords(values, bits);
    longs := AsLongs(words);
  }

  lemma PerLongEmpty(ds: seq<nat>, bits: nat, p: nat, j: nat)
    ensures PerLongWord(ds, bits, p, j, 0) == 0
  {
    MulPositiveOrZero(j, p);
  }

  lemma PerLongPositive(bits: nat)
    requires 1 <= bits < 64
    ensures 64 / bits >= 1
  {
    Euclid(64, bits);
  }

  /** One slot of one word. */
  function SlotValue(word: nat, bits: nat, slot: nat): nat {
    MulPositiveOrZero(slot, bits);
    And(Shr(word, slot * bits), Mask(bits))
  }

  /** Value `index` of a per-long array; past the end it reads as zero. */
  function PerLongValue(words: seq<nat>, bits: nat, index: nat): nat
    requires 1 <= bits < 64
  {
    hide *;
    PerLongPositive(bits);
    var perLong := 64 / bits;
    if index / perLong >= |words| then 0 else SlotValue(words[index / perLong], bits, index % perLong)
  }

  function UnpackPerLong(longs: seq<i64>, bits: nat, count: nat): (values: seq<u16>)
    requires 1 <= bits < 64
    ensures |values| == count
  {
    seq(count, i requires 0 <= i < count => PerLongValue(AsWords(longs), bits, i) % 0x1_0000)
  }

  lemma PerLongDigit(values: seq<nat>, bits: nat, i: nat)
    requires 1 <= bits < 64 && i < |values|
    ensures PerLongValue(PerLongWords(values, bits), bits, i) == Masked(values, bits)[i]
  {
    hide Pow, FromDigits, And, Mask, Pow2, Masked, PerLongWords;
    var p, ds := 64 / bits, Masked(values, bits);
    var s, q := i % p, i / p;
    SlotsFit(i, |values|, p);
    Euclid(i, p);
    BitPosition(bits, s);
    var lo := q * p;
    var digits := ds[lo..Min(lo + p, |values|)];
    var words := PerLongWords(values, bits);
    assert words[q] == FromDigits(digits, Pow2(bits));
    DigitAt(digits, Pow2(bits), s);
    AndMask(Shr(words[q], s * bits), bits);
  }

  lemma PerLongWordsFit(values: seq<nat>, bits: nat)
    requires 1 <= bits < 64
    ensures AreDigits(PerLongWords(values, bits), WORD)
  {
    hide Pow, FromDigits, Pow2, Masked, PerLongWords;
    var p, ds := 64 / bits, Masked(values, bits);
    forall j | 0 <= j < DivCeil(|values|, p)
      ensures PerLongWord(ds, bits, p, j, |values|) < WORD
    {
      MulPositiveOrZero(j, p);
      var digits := ds[Min(j * p, |values|)..Min(j * p + p, |values|)];
      DigitsBound(digits, Pow2(bits));
      PowMonotone(Pow2(bits), |digits|, p);
      BoundWord(FromDigits(digits, Pow2(bits)), bits, p - 1);
    }
  }

  /** Per-long packing loses nothing: every value that fits comes back, at every width and length. */
  lemma PerLongRoundTrip(values: seq<u16>, bits: nat)
    requires 1 <= bits < 64 && AreDigits(values, Pow2(bits))
    ensures UnpackPerLong(AsLongs(PerLongWords(values, bits)), bits, |values|) == values
  {
    hide Pow2, Masked, PerLongWords, PerLongValue;
    PerLongWordsFit(values, bits);
    WordsSurviveTheCast(PerLongWords(values, bits));
    MaskedIsIdentity(values, bits);
    forall i | 0 <= i < |values|
      ensures UnpackPerLong(AsLongs(PerLongWords(values, bits)), bits, |values|)[i] == values[i]
    {
      PerLongDigit(values, bits, i);
    }
  }

  // ------------------------------------------------------------ spanning

  /** The words hold `n` and nothing at or above bit `off` of word `k`. */
  ghost predicate HoldUpTo(words: seq<nat>, n: nat, k: nat, off: nat) {
    && AreDigits(words, WORD)
    && FromDigits(words, WORD) == n
    && (forall j :: k < j < |words| ==> words[j] == 0)
    && (k < |words| ==> words[k] < Pow2(off))
  }

  /** The words written so far hold the numeral of the first `i` values and nothing above it. */
  ghost predicate SpanningSoFar(words: seq<nat>, ds: seq<nat>, bits: nat, i: nat)
    requires i <= |ds|
  {
    i * bits >= 0 && HoldUpTo(words, FromDigits(ds[..i], Pow2(bits)), i * bits / 64, i * bits % 64)
  }

  /** The words of the spanning scheme: as many as the bits need, and together one numeral. */
  ghost predicate IsSpanning(words: seq<nat>, values: seq<nat>, bits: nat) {
    && |values| * bits >= 0
    && |words| == DivCeil(|values| * bits, 64)
    && AreDigits(words, WORD)
    && FromDigits(words, WORD) == FromDigits(Masked(values, bits), Pow2(bits))
  }

  lemma SplitProduct(v: nat, a: nat, b: nat, m: nat)
    requires a > 0 && b > 0 && m == a * b
    ensures 0 <= v % b * a < m && v * a >= 0
    ensures v * a == v % b * a + v / b * m && v * a % m == v % b * a
  {
    Euclid(v, b);
    var q, r := v / b, v % b;
    TwoDigits(q, r, 0, a, b, m);
    DivMod(q, r * a, m);
  }

  lemma WordProduct(off: nat)
    requires off <= 64
    ensures WORD == Pow2(off) * Pow2(64 - off)
  {
    hide Pow, Pow2;
    Pow2Values();
    Pow2Add(off, 64 - off);
  }

  /** A shifted value falls into the low word and what spills over into the next. */
  lemma ShiftSplit(v: nat, off: nat)
    requires off < 64
    ensures v * Pow2(off) == Shl64(v, off) + Shr(v, 64 - off) * WORD
    ensures Shl64(v, off) == v % Pow2(64 - off) * Pow2(off) < WORD
  {
    hide Pow, Pow2;
    WordProduct(off);
    SplitProduct(v, Pow2(off), Pow2(64 - off), WORD);
  }

  lemma ShiftInside(v: nat, bits: nat, off: nat)
    requires off < 64 && v < Pow2(bits) && off + bits <= 64
    ensures Shr(v, 64 - off) == 0
    ensures Shl64(v, off) + Pow2(off) <= Pow2(off + bits)
  {
    hide Pow, Pow2;
    Pow2Add(off, bits);
    Pow2Monotone(bits, 64 - off);
    SmallMod(v, Pow2(64 - off));
    ShiftSplit(v, off);
    MulMono(v + 1, Pow2(bits), Pow2(off));
    MulAdd(Pow2(off), v, 1);
    MulAssoc(1, Pow2(off), Pow2(bits));
  }

  lemma ShiftAcross(v: nat, bits: nat, off: nat)
    requires off < 64 && v < Pow2(bits) && off + bits > 64
    ensures Shr(v, 64 - off) < Pow2(off + bits - 64)
  {
    hide Pow, Pow2;
    Pow2Add(64 - off, off + bits - 64);
    QuotientBelow(v, Pow2(64 - off), Pow2(off + bits - 64));
  }

  lemma BitIndex(i: nat, bits: nat)
    ensures 0 <= i * bits && (i + 1) * bits == i * bits + bits
  {
    MulAdd(bits, i, 1);
  }

  /** Value `i` weighs `2^off` inside word `k`. */
  lemma NumeralStep(ds: seq<nat>, bits: nat, i: nat, k: nat, off: nat)
    requires i < |ds| && i * bits == 64 * k + off
    ensures FromDigits(ds[..i + 1], Pow2(bits)) == FromDigits(ds[..i], Pow2(bits)) + ds[i] * Pow2(off) * Pow(WORD, k)
  {
    hide Pow, Pow2, FromDigits;
    var base, v := Pow2(bits), ds[i];
    assert ds[..i + 1] == ds[..i] + [v];
    DigitsAppend(ds[..i], [v], base);
    DigitsSingle(v, base);
    Pow2Mul(bits, i);
    MulAssoc(1, bits, i);
    PowSplit(i * bits, k, off);
    MulAssoc(v, Pow2(off), Pow(WORD, k));
    MulAssoc(1, v, Pow2(i * bits));
    MulAssoc(1, Pow(WORD, k), Pow2(off));
  }

  /** The position after one more value. */
  lemma NextPosition(i: nat, bits: nat)
    ensures 0 <= i * bits && 0 <= (i + 1) * bits
    ensures (i + 1) * bits / 64 == i * bits / 64 + (i * bits % 64 + bits) / 64
    ensures (i + 1) * bits % 64 == (i * bits % 64 + bits) % 64
  {
    BitIndex(i, bits);
    var start := i * bits;
    assert start == start / 64 * 64 + start % 64;
  }

  /** Adding to word `k` what stays below bit `top`. */
  lemma HoldMore(words: seq<nat>, n: nat, k: nat, off: nat, low: nat, top: nat)
    requires HoldUpTo(words, n, k, off) && k < |words| && words[k] + low < Pow2(top) && top <= 64
    ensures HoldUpTo(words[k := words[k] + low], n + low * Pow(WORD, k), k + top / 64, top % 64)
  {
    hide Pow, Pow2, FromDigits;
    DigitsAddAt(words, WORD, k, low);
    Pow2Values();
    Pow2Zero();
    Pow2Monotone(top, 64);
  }

  lemma OrInside(word: nat, v: nat, off: nat, bits: nat)
    requires off < 64 && word < Pow2(off) && v < Pow2(bits) && off + bits <= 64
    ensures Or(word, Shl64(v, off)) == word + Shl64(v, off) < Pow2(off + bits)
    ensures Shl64(v, off) == v * Pow2(off)
  {
    hide Pow, Pow2, Or, Shl64, Shr;
    ShiftSplit(v, off);
    ShiftInside(v, bits, off);
    OrDisjoint(word, v % Pow2(64 - off), off);
  }

  /** A value that fits the rest of its word. */
  lemma HoldInside(words: seq<nat>, n: nat, k: nat, off: nat, v: nat, bits: nat)
    requires HoldUpTo(words, n, k, off) && v < Pow2(bits) && off < 64 && off + bits <= 64 && k < |words|
    ensures v * Pow2(off) * Pow(WORD, k) >= 0
    ensures HoldUpTo(words[k := Or(words[k], Shl64(v, off))], n + v * Pow2(off) * Pow(WORD, k),
      k + (off + bits) / 64, (off + bits) % 64)
  {
    hide Pow, Pow2, FromDigits, Or, Shl64, AreDigits;
    OrInside(words[k], v, off, bits);
    HoldMore(words, n, k, off, Shl64(v, off), off + bits);
  }

  /** A value that straddles two words: its low part. */
  lemma HoldLow(words: seq<nat>, n: nat, k: nat, off: nat, v: nat)
    requires HoldUpTo(words, n, k, off) && off < 64 && k + 1 < |words|
    ensures var words1 := words[k := Or(words[k], Shl64(v, off))];
      HoldUpTo(words1, n + Shl64(v, off) * Pow(WORD, k), k + 1, 0)
  {
    hide Pow, Pow2, FromDigits, Or, Shl64, Shr;
    var low := Shl64(v, off);
    ShiftSplit(v, off);
    OrDisjoint(words[k], v % Pow2(64 - off), off);
    DigitsAddAt(words, WORD, k, low);
    OrWithinWord(words[k], v, off);
    Pow2Zero();
  }

  /** And what spills over. */
  lemma HoldHigh(words: seq<nat>, n: nat, k: nat, high: nat, bits: nat)
    requires HoldUpTo(words, n, k, 0) && high < Pow2(bits) && bits < 64 && k < |words|
    ensures HoldUpTo(words[k := Or(words[k], high)], n + high * Pow(WORD, k), k, bits)
  {
    hide Pow, Pow2, FromDigits, Or;
    Pow2Zero();
    OrZero(high);
    DigitsAddAt(words, WORD, k, high);
    Pow2Values();
    Pow2Monotone(bits, 64);
  }

  lemma HoldAcross(words: seq<nat>, n: nat, k: nat, off: nat, v: nat, bits: nat)
    requires HoldUpTo(words, n, k, off) && v < Pow2(bits) && off < 64 && 64 < off + bits < 128 && k + 1 < |words|
    ensures v * Pow2(off) * Pow(WORD, k) >= 0
    ensures var words1 := words[k := Or(words[k], Shl64(v, off))];
      HoldUpTo(words1[k + 1 := Or(words1[k + 1], Shr(v, 64 - off))], n + v * Pow2(off) * Pow(WORD, k),
               k + (off + bits) / 64, (off + bits) % 64)
  {
    hide Pow, Pow2, FromDigits, Or, Shl64, Shr, HoldUpTo;
    var low, high := Shl64(v, off), Shr(v, 64 - off);
    var words1 := words[k := Or(words[k], low)];
    HoldLow(words, n, k, off, v);
    ShiftAcross(v, bits, off);
    HoldHigh(words1, n + low * Pow(WORD, k), k + 1, high, off + bits - 64);
    ShiftSplit(v, off);
    WeightOfNext(low, high, k);
  }

  lemma OrZero(n: nat)
    ensures Or(0, n) == n
  {}

  lemma OrWithinWord(word: nat, v: nat, off: nat)
    requires off < 64 && word < Pow2(off)
    ensures word + Shl64(v, off) < WORD
  {
    hide Pow, Pow2, Shl64;
    ShiftSplit(v, off);
    WordProduct(off);
    AboveFits(word, v % Pow2(64 - off), Pow2(off), Pow2(64 - off));
  }

  lemma AboveFits(word: nat, r: nat, a: nat, b: nat)
    requires word < a && r < b
    ensures word + r * a < a * b
  {
    MulMono(r + 1, b, a);
    MulAdd(a, r, 1);
    MulAssoc(1, a, b);
  }

  lemma WeightOfNext(low: nat, high: nat, k: nat)
    ensures (low + high * WORD) * Pow(WORD, k) == low * Pow(WORD, k) + high * Pow(WORD, k + 1)
  {
    MulAdd(Pow(WORD, k), low, high * WORD);
    MulAssoc(high, WORD, Pow(WORD, k));
  }

  lemma PowSplit(start: nat, k: nat, off: nat)
    requires start == 64 * k + off
    ensures Pow2(start) == Pow(WORD, k) * Pow2(off)
  {
    hide Pow;
    Pow2Add(64 * k, off);
    Pow2Mul(64, k);
    Pow2Values();
  }

  lemma SpanningInRange(count: nat, bits: nat, index: nat)
    requires 1 <= bits && index < count
    ensures index * bits >= 0 && count * bits >= 0
    ensures index * bits / 64 < DivCeil(count * bits, 64)
    ensures index * bits % 64 + bits > 64 && bits < 64 ==> index * bits / 64 + 1 < DivCeil(count * bits, 64)
  {
    MulMono(index + 1, count, bits);
    MulAdd(bits, index, 1);
  }

  /** The words after one more value: its low part or-ed into word `k`, and what spills over into the next. */
  function Straddled(words: seq<nat>, k: nat, off: nat, v: nat, bits: nat): (r: seq<nat>)
    requires off < 64 && k < |words| && bits < 64 && (off + bits > 64 ==> k + 1 < |words|)
    ensures |r| == |words|
  {
    var first := words[k := Or(words[k], Shl64(v, off))];
    if off + bits <= 64 then first else first[k + 1 := Or(first[k + 1], Shr(v, bits - (off + bits - 64)))]
  }

  lemma SpanningStep(words: seq<nat>, ds: seq<nat>, bits: nat, i: nat)
    requires 1 <= bits <= 16 && i < |ds| && AreDigits(ds, Pow2(bits)) && SpanningSoFar(words, ds, bits, i)
    requires |ds| * bits >= 0 && |words| == DivCeil(|ds| * bits, 64)
    ensures i * bits >= 0 && i * bits / 64 < |words| && (i * bits % 64 + bits > 64 ==> i * bits / 64 + 1 < |words|)
    ensures SpanningSoFar(Straddled(words, i * bits / 64, i * bits % 64, ds[i], bits), ds, bits, i + 1)
  {
    hide Pow, Pow2, FromDigits, Or, Shl64, Shr;
    SpanningInRange(|ds|, bits, i);
    var index, offset := i * bits / 64, i * bits % 64;
    var n := FromDigits(ds[..i], Pow2(bits));
    NumeralStep(ds, bits, i, index, offset);
    NextPosition(i, bits);
    if offset + bits <= 64 {
      HoldInside(words, n, index, offset, ds[i], bits);
    } else {
      HoldAcross(words, n, index, offset, ds[i], bits);
    }
  }

  /** Packs values contiguously, least significant bit first, across word boundaries. */
  method PackSpanning(values: seq<u16>, bits: nat) returns (longs: seq<i64>)
    requires 1 <= bits <= 16
    ensures IsSpanning(AsWords(longs), values, bits)
  {
    hide Pow, Pow2, FromDigits, Or, Shl64, Shr, And, Mask;
    MulPositiveOrZero(|values|, bits);
    var totalBits := |values| * bits;
    var words: seq<nat> := seq(DivCeil(totalBits, 64), _ => 0);
    ghost var ds := Masked(values, bits);
    DigitsZero(words, WORD);
    DigitsZero(ds[..0], Pow2(bits));
    for i := 0 to |values|
      invariant |words| == DivCeil(totalBits, 64)
      invariant SpanningSoFar(words, ds, bits, i)
    {
      AndMask(values[i], bits);
      SpanningStep(words, ds, bits, i);
      ghost var before := words;
      var start := i * bits;
      var index, offset := start / 64, start % 64;
      var value := And(values[i], Mask(bits));
      words := words[index := Or(words[index], Shl64(value, offset))];
      var end := offset + bits;
      if end > 64 {
        var spilled := end - 64;
        words := words[index + 1 := Or(words[index + 1], Shr(value, bits - spilled))];
      }
      assert words == Straddled(before, index, offset, ds[i], bits);
    }
    assert ds[..|values|] == ds;
    longs := AsLongs(words);
    WordsSurviveTheCast(words);
  }

  /** Value `index` of a spanning array, as `unpack_spanning` computes it. */
  function SpanningValue(words: seq<nat>, bits: nat, index: nat): nat
    requires 1 <= bits < 64 && index * bits >= 0 && index * bits / 64 < |words|
  {
    var start := index * bits;
    var k, offset := start / 64, start % 64;
    var low := Shr(words[k], offset);
    var end := offset + bits;
    var value := if end > 64 && k + 1 < |words| then Or(low, Shl64(words[k + 1], bits - (end - 64))) else low;
    And(value, Mask(bits))
  }

  /** `unpack_spanning`: the loop that pushes `count` values. */
  method UnpackSpanning(longs: seq<i64>, bits: nat, count: nat) returns (values: seq<u16>)
    requires 1 <= bits < 64
    requires count * bits >= 0 && |longs| >= DivCeil(count * bits, 64)
    ensures values == SpanningValues(AsWords(longs), bits, count)
  {
    var words := AsWords(longs);
    values := [];
    for index := 0 to count
      invariant values == SpanningValues(words, bits, index)
    {
      SpanningInRange(count, bits, index);
      values := values + [SpanningValue(words, bits, index) % 0x1_0000];
    }
  }

  function SpanningValues(words: seq<nat>, bits: nat, count: nat): (values: seq<u16>)
    requires 1 <= bits < 64
    ensures |values| == count
  {
    seq(count, i requires 0 <= i < count =>
      if i * bits >= 0 && i * bits / 64 < |words| then SpanningValue(words, bits, i) % 0x1_0000 else 0)
  }

  /** What `unpack_spanning` reads at index `i` is the `bits`-wide window at bit `i * bits`
      of the whole array taken as one number, whatever the words are. */
  lemma SpanningWindow(words: seq<nat>, bits: nat, i: nat)
    requires 1 <= bits < 64 && AreDigits(words, WORD) && i * bits >= 0 && i * bits / 64 < |words|
    ensures SpanningValue(words, bits, i) == FromDigits(words, WORD) / Pow2(i * bits) % Pow2(bits)
  {
    hide Pow, Pow2, FromDigits, Or, Shl64, Shr, And, Mask;
    var start := i * bits;
    var k, off := start / 64, start % 64;
    var n := FromDigits(words, WORD);
    DigitsDrop(words, WORD, k);
    PowSplit(start, k, off);
    DivDiv(n, Pow(WORD, k), Pow2(off));
    DigitsUncons(words[k..], WORD);
    assert words[k..][1..] == words[k + 1..];
    var l0, m := words[k], FromDigits(words[k + 1..], WORD);
    ShiftedSum(l0, m, off);
    var low, w := Shr(l0, off), 64 - off;
    AndMask(low, bits);
    if off + bits <= 64 {
      WindowInside(low, m, bits, w);
    } else if k + 1 < |words| {
      DigitsUncons(words[k + 1..], WORD);
      WindowAcross(low, words[k + 1], FromDigits(words[k + 1..][1..], WORD), bits, w);
      AndMask(Or(low, Shl64(words[k + 1], w)), bits);
    } else {
      DigitsZero(words[k + 1..], WORD);
    }
  }

  lemma DigitsUncons(ds: seq<nat>, base: nat)
    requires |ds| > 0
    ensures FromDigits(ds, base) == ds[0] + base * FromDigits(ds[1..], base)
  {}

  lemma ShiftedSum(l0: nat, m: nat, off: nat)
    requires l0 < WORD && off < 64
    ensures (l0 + WORD * m) / Pow2(off) == Shr(l0, off) + Pow2(64 - off) * m
    ensures Shr(l0, off) < Pow2(64 - off)
  {
    hide Pow, Pow2;
    Pow2Values();
    Pow2Add(off, 64 - off);
    var a, b := Pow2(off), Pow2(64 - off);
    Euclid(l0, a);
    var q, r := l0 / a, l0 % a;
    MulPositiveOrZero(b, m);
    ScaledSum(a, b, m, q, r);
    assert l0 + WORD * m == (q + b * m) * a + r;
    DivMod(q + b * m, r, a);
    QuotientBelow(l0, a, b);
  }

  lemma ScaledSum(a: nat, b: nat, m: nat, q: nat, r: nat)
    ensures q * a + r + a * b * m == (q + b * m) * a + r
  {
    MulAdd(a, q, b * m);
    MulAssoc(a, b, m);
    MulAssoc(1, b * m, a);
  }

  lemma WindowInside(low: nat, m: nat, bits: nat, w: nat)
    requires bits <= w
    ensures (low + Pow2(w) * m) % Pow2(bits) == low % Pow2(bits)
  {
    hide Pow, Pow2;
    Pow2Add(w - bits, bits);
    var a, b := Pow2(bits), Pow2(w - bits);
    MulAssoc(m, b, a);
    MulAssoc(1, m, Pow2(w));
    AddMultiple(low, m * b, a);
  }

  lemma AddMultiple(n: nat, q: nat, d: nat)
    requires d > 0
    ensures n + q * d >= 0
    ensures (n + q * d) % d == n % d
  {
    Euclid(n, d);
    var q0, r := n / d, n % d;
    MulAdd(d, q0, q);
    MulPositiveOrZero(q, d);
    DivMod(q0 + q, r, d);
  }

  /** Or-ing the next word in above the bits of this one. */
  lemma OrNextWord(low: nat, l1: nat, w: nat)
    requires 1 <= w < 64 && low < Pow2(w)
    ensures Or(low, Shl64(l1, w)) == low + Shl64(l1, w)
  {
    hide Pow, Pow2, Or, Shl64;
    ShiftSplit(l1, w);
    OrDisjoint(low, l1 % Pow2(64 - w), w);
  }

  lemma WindowAcross(low: nat, l1: nat, rest: nat, bits: nat, w: nat)
    requires 1 <= w < bits < 64 && low < Pow2(w)
    ensures l1 + WORD * rest >= 0 && Pow2(w) * (l1 + WORD * rest) >= 0
    ensures Or(low, Shl64(l1, w)) % Pow2(bits) == (low + Pow2(w) * (l1 + WORD * rest)) % Pow2(bits)
  {
    hide Pow, Pow2, Or, Shl64, Shr;
    OrNextWord(low, l1, w);
    ShiftSplit(l1, w);
    Pow2Values();
    Pow2Add(64 - bits, bits);
    var a, c, d := Pow2(w), Pow2(64 - bits), Pow2(bits);
    var lost := Shr(l1, 64 - w) + a * rest;
    LostBits(a, l1, rest, Shl64(l1, w), Shr(l1, 64 - w));
    assert a * (l1 + WORD * rest) == Shl64(l1, w) + lost * WORD;
    MulAssoc(lost, c, d);
    MulPositiveOrZero(lost, c);
    AddMultiple(low + Shl64(l1, w), lost * c, d);
  }

  lemma LostBits(a: nat, l1: nat, rest: nat, kept: nat, high: nat)
    requires l1 * a == kept + high * WORD
    ensures high + a * rest >= 0
    ensures a * (l1 + WORD * rest) == kept + (high + a * rest) * WORD
  {
    MulAdd(a, l1, WORD * rest);
    MulAssoc(a, rest, WORD);
    MulAdd(WORD, high, a * rest);
    MulPositiveOrZero(a, rest);
    MulAssoc(1, a, l1);
  }

  /** Spanning packing loses nothing, for every width from 1 to 16 and every length. */
  lemma SpanningRoundTrip(words: seq<nat>, values: seq<u16>, bits: nat)
    requires 1 <= bits <= 16 && AreDigits(values, Pow2(bits))
    requires IsSpanning(words, values, bits)
    ensures SpanningValues(words, bits, |values|) == values
  {
    hide Pow, Pow2, FromDigits, SpanningValue;
    MaskedIsIdentity(values, bits);
    forall i | 0 <= i < |values|
      ensures SpanningValues(words, bits, |values|)[i] == values[i]
    {
      SpanningDigit(words, values, bits, i);
    }
  }

  lemma SpanningDigit(words: seq<nat>, values: seq<nat>, bits: nat, i: nat)
    requires 1 <= bits < 64 && AreDigits(values, Pow2(bits)) && AreDigits(words, WORD) && i < |values|
    requires FromDigits(words, WORD) == FromDigits(values, Pow2(bits))
    requires |values| * bits >= 0 && |words| == DivCeil(|values| * bits, 64)
    ensures 0 <= i * bits && i * bits / 64 < |words|
    ensures SpanningValue(words, bits, i) == values[i]
  {
    hide Pow, Pow2, FromDigits, SpanningValue;
    SpanningInRange(|values|, bits, i);
    SpanningWindow(words, bits, i);
    DigitAt(values, Pow2(bits), i);
    Pow2Mul(bits, i);
  }

  // ------------------------------------------------------ the two compared

  /** When the width divides 64 and the values fill whole words, the per-long words are spanning words. */
  lemma {:induction false} PerLongIsSpanning(values: seq<nat>, bits: nat)
    requires 1 <= bits <= 16 && 64 % bits == 0 && |values| % (64 / bits) == 0
    ensures IsSpanning(PerLongWords(values, bits), values, bits)
  {
    hide *;
    PerLongPositive(bits);
    var p, ds := 64 / bits, Masked(values, bits);
    var n := |values| / p;
    Euclid(64, bits);
    Euclid(|values|, p);
    GroupsNumeral(ds, Pow2(bits), p, n);
    WholeWord(bits, p);
    WholeWords(values, bits, p, n);
    PerLongWordsFit(values, bits);
    IsSpanningByParts(values, bits, p, n);
  }

  lemma WholeWord(bits: nat, p: nat)
    requires p * bits == 64
    ensures Pow(Pow2(bits), p) == WORD
  {
    hide Pow, Pow2;
    Pow2Mul(bits, p);
    Pow2Values();
  }

  lemma IsSpanningByParts(values: seq<nat>, bits: nat, p: nat, n: nat)
    requires 1 <= bits < 64 && p * bits == 64 && |values| == n * p
    requires |PerLongWords(values, bits)| == n && AreDigits(PerLongWords(values, bits), WORD)
    requires FromDigits(PerLongWords(values, bits), WORD) == FromDigits(Masked(values, bits), Pow2(bits))
    ensures IsSpanning(PerLongWords(values, bits), values, bits)
  {
    hide Pow, Pow2, FromDigits, Masked, PerLongWords;
    MulAssoc(n, p, bits);
    DivMod(n, 63, 64);
  }

  /** Full words, one numeral per group of `p` digits. */
  ghost function Groups(ds: seq<nat>, base: nat, p: nat): seq<nat>
    requires p > 0
    decreases |ds|
  {
    if |ds| < p then [] else [FromDigits(ds[..p], base)] + Groups(ds[p..], base, p)
  }

  lemma {:induction false} GroupsNumeral(ds: seq<nat>, base: nat, p: nat, n: nat)
    requires p > 0 && |ds| == n * p
    ensures FromDigits(Groups(ds, base, p), Pow(base, p)) == FromDigits(ds, base)
    decreases n
  {
    hide Pow, FromDigits;
    if n == 0 {
      NoDigits(base);
      NoDigits(Pow(base, p));
    } else {
      MulAdd(p, n - 1, 1);
      MulPositiveOrZero(n - 1, p);
      var head, tail := ds[..p], ds[p..];
      GroupsNumeral(tail, base, p, n - 1);
      DigitsUncons(Groups(ds, base, p), Pow(base, p));
      assert head + tail == ds;
      DigitsAppend(head, tail, base);
    }
  }

  lemma NoDigits(base: nat)
    ensures FromDigits([], base) == 0
  {}

  lemma {:induction false} GroupAt(ds: seq<nat>, base: nat, p: nat, n: nat, j: nat)
    requires p > 0 && |ds| == n * p && j < n
    ensures |Groups(ds, base, p)| == n && 0 <= j * p && j * p + p <= |ds|
    ensures Groups(ds, base, p)[j] == FromDigits(ds[j * p..j * p + p], base)
    decreases n
  {
    hide FromDigits;
    MulAdd(p, n - 1, 1);
    MulPositiveOrZero(n - 1, p);
    var tail := ds[p..];
    if j == 0 {
      assert 0 * p == 0;
      GroupCount(tail, base, p, n - 1);
    } else {
      GroupAt(tail, base, p, n - 1, j - 1);
      MulAdd(p, j - 1, 1);
      SliceOfTail(ds, p, (j - 1) * p);
    }
  }

  lemma SliceOfTail(ds: seq<nat>, p: nat, q: nat)
    requires p + q + p <= |ds|
    ensures ds[p..][q..q + p] == ds[q + p..q + p + p]
  {}

  lemma {:induction false} GroupCount(ds: seq<nat>, base: nat, p: nat, n: nat)
    requires p > 0 && |ds| == n * p
    ensures |Groups(ds, base, p)| == n
    decreases n
  {
    hide FromDigits;
    if n > 0 {
      MulAdd(p, n - 1, 1);
      MulPositiveOrZero(n - 1, p);
      GroupCount(ds[p..], base, p, n - 1);
    }
  }

  lemma WholeWords(values: seq<nat>, bits: nat, p: nat, n: nat)
    requires 1 <= bits < 64 && p == 64 / bits && p > 0 && |values| == n * p
    ensures PerLongWords(values, bits) == Groups(Masked(values, bits), Pow2(bits), p)
    ensures |PerLongWords(values, bits)| == n
  {
    hide Pow, Pow2, FromDigits, Masked;
    var ds := Masked(values, bits);
    DivMod(n, p - 1, p);
    GroupCount(ds, Pow2(bits), p, n);
    forall j | 0 <= j < n
      ensures PerLongWords(values, bits)[j] == Groups(ds, Pow2(bits), p)[j]
    {
      GroupAt(ds, Pow2(bits), p, n, j);
    }
  }

  /** Hence the schemes write the same words exactly there: both are the same numeral. */
  lemma SpanningEqualsPerLong(words: seq<nat>, values: seq<nat>, bits: nat)
    requires 1 <= bits <= 16 && 64 % bits == 0 && |values| % (64 / bits) == 0
    requires IsSpanning(words, values, bits)
    ensures words == PerLongWords(values, bits)
  {
    PerLongIsSpanning(values, bits);
    DigitsUnique(words, PerLongWords(values, bits), WORD);
  }

  /** Values whose word is missing read as zero. */
  lemma MissingWordsAreZero(longs: seq<i64>, bits: nat, count: nat, i: nat)
    requires 1 <= bits < 64 && i < count
    ensures 64 / bits > 0
    ensures i / (64 / bits) >= |longs| ==> UnpackPerLong(longs, bits, count)[i] == 0
  {
    hide SlotValue;
    PerLongPositive(bits);
  }
}
