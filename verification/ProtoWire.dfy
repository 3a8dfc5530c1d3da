/** The protobuf wire reader: base-128 varints, and an iterator over the fields of a message. */
module ProtoWire {
  import opened Bits
  import opened Wrappers

  type Bytes = seq<Byte>

  datatype Field =
    | VarintField(number: U64, value: U64)
    | LengthDelimited(number: U64, bytes: Bytes)
    | Fixed32
    | Fixed64

  // ---- varints ----

  /** The reader's loop from `shift` on: what it returns and where it leaves the position. */
  function ReadFrom(data: Bytes, pos: nat, shift: nat, value: U64): (r: (Option<U64>, nat))
    requires pos <= |data|
    ensures pos <= r.1 <= |data| && (r.0.Some? ==> pos < r.1)
    decreases |data| - pos
  {
    if pos == |data| || shift >= 64 then (None, pos)
    else
      var v := Accumulate(value, data[pos] % 128, shift);
      if data[pos] < 128 then (Some(v), pos + 1) else ReadFrom(data, pos + 1, shift + 7, v)
  }

  /** `value |= digit << shift`; both sides have 64 bits, so the remainder changes nothing. */
  function Accumulate(value: U64, digit: nat, shift: nat): U64
    requires digit < 128
  {
    BitOr(value, ShiftLeft(digit, shift)) % U64_LIMIT
  }

  function ReadVarint(data: Bytes, pos: nat): (r: (Option<U64>, nat))
    requires pos <= |data|
    ensures pos <= r.1 <= |data| && (r.0.Some? ==> pos < r.1)
  {
    ReadFrom(data, pos, 0, 0)
  }

  /** The number a group of bytes stands for: seven bits each, least significant first. */
  function Base128(group: Bytes): nat {
    if group == [] then 0 else group[0] % 128 + 128 * Base128(group[1..])
  }

  /** How many bytes from `pos` on announce a successor. */
  function Continuations(data: Bytes, pos: nat): nat
    requires pos <= |data|
    ensures pos + Continuations(data, pos) <= |data|
    decreases |data| - pos
  {
    if pos == |data| || data[pos] < 128 then 0 else 1 + Continuations(data, pos + 1)
  }

  // Adding the next digit modulo 2^64; before the tenth byte nothing is dropped.
  lemma AccumulateIsSum(value: U64, digit: nat, shift: nat)
    requires digit < 128 && shift <= 63 && value < Pow2(shift)
    ensures Accumulate(value, digit, shift) == (value + digit * Pow2(shift)) % U64_LIMIT
    ensures value + digit * Pow2(shift) < Pow2(shift + 7)
  {
    hide Pow2, BitOr, ShiftLeft;
    OrShiftedIsSum(value, digit, shift);
    Pow2Sum(7, shift);
    Pow2Known();
    DigitFits(value, digit, Pow2(shift), 128);
  }

  lemma {:induction false} Pow2Monotone(a: nat, b: nat)
    requires a <= b
    ensures Pow2(a) <= Pow2(b)
    decreases b - a
  {
    if a < b {
      Pow2Monotone(a, b - 1);
    }
  }

  /** `digits` moved up by `i` groups of seven bits. */
  function Placed(digits: nat, i: nat): nat {
    if i == 0 then digits else 128 * Placed(digits, i - 1)
  }

  lemma {:induction false} PlacedIsShifted(digits: nat, i: nat)
    ensures Placed(digits, i) == digits * Pow2(7 * i)
  {
    if i > 0 {
      PlacedIsShifted(digits, i - 1);
      Pow2Sum(7, 7 * (i - 1));
      Pow2Known();
    }
  }

  lemma {:induction false} PlacedStep(digit: nat, rest: nat, i: nat)
    ensures Placed(digit + 128 * rest, i) == Placed(digit, i) + Placed(rest, i + 1)
  {
    if i > 0 {
      PlacedStep(digit, rest, i - 1);
    }
  }

  lemma AccumulatePlaced(value: U64, digit: nat, i: nat)
    requires digit < 128 && i <= 9 && value < Pow2(7 * i)
    ensures Accumulate(value, digit, 7 * i) == (value + Placed(digit, i)) % U64_LIMIT
    ensures value + Placed(digit, i) < Pow2(7 * (i + 1))
    ensures i < 9 ==> Accumulate(value, digit, 7 * i) == value + Placed(digit, i)
  {
    hide Pow2, Accumulate, Placed;
    AccumulateIsSum(value, digit, 7 * i);
    PlacedIsShifted(digit, i);
    Pow2Known();
    if i < 9 {
      Pow2Monotone(7 * i + 7, 64);
    }
  }

  /** Base 128 modulo 2^64, for a group of at most ten bytes that ends; a longer group, or one cut off by
      the end of the data, is refused. `value` holds the `i` groups before `pos`. */
  function Meaning(data: Bytes, pos: nat, i: nat, value: nat): (Option<U64>, nat)
    requires pos <= |data| && i <= 9
  {
    var k := Continuations(data, pos);
    if i + k <= 9 && pos + k < |data| then
      (Some((value + Placed(Base128(data[pos..pos + k + 1]), i)) % U64_LIMIT), pos + k + 1)
    else (None, pos + if k < 10 - i then k else 10 - i)
  }

  lemma MeaningOfLast(data: Bytes, pos: nat, i: nat, value: nat)
    requires pos < |data| && i <= 9 && data[pos] < 128
    ensures Meaning(data, pos, i, value) == (Some((value + Placed(data[pos], i)) % U64_LIMIT), pos + 1)
  {
    assert data[pos..pos + 1] == [data[pos]];
    assert Base128([data[pos]]) == data[pos];
  }

  lemma MeaningOfNext(data: Bytes, pos: nat, i: nat, value: nat)
    requires pos < |data| && i < 9 && data[pos] >= 128
    ensures Meaning(data, pos, i, value) == Meaning(data, pos + 1, i + 1, value + Placed(data[pos] % 128, i))
  {
    var k := Continuations(data, pos + 1);
    if i + 1 + k <= 9 && pos + 1 + k < |data| {
      assert data[pos..pos + k + 2][1..] == data[pos + 1..pos + k + 2];
      PlacedStep(data[pos] % 128, Base128(data[pos + 1..pos + k + 2]), i);
    }
  }

  lemma MeaningOfNone(data: Bytes, pos: nat, i: nat, value: nat)
    requires pos <= |data| && i <= 9 && (pos == |data| || (i == 9 && data[pos] >= 128))
    ensures Meaning(data, pos, i, value) == (None, if pos == |data| then pos else pos + 1)
  {
  }

  lemma {:induction false} ReadFromMeaning(data: Bytes, pos: nat, i: nat, value: U64)
    requires pos <= |data| && i <= 9 && value < Pow2(7 * i)
    ensures ReadFrom(data, pos, 7 * i, value) == Meaning(data, pos, i, value)
    decreases |data| - pos
  {
    hide Meaning, Accumulate, Pow2, Placed;
    if pos < |data| {
      var digit := data[pos] % 128;
      AccumulatePlaced(value, digit, i);
      if data[pos] < 128 {
        MeaningOfLast(data, pos, i, value);
      } else if i < 9 {
        var next := Accumulate(value, digit, 7 * i);
        MeaningOfNext(data, pos, i, value);
        ReadFromMeaning(data, pos + 1, i + 1, next);
        assert ReadFrom(data, pos, 7 * i, value) == ReadFrom(data, pos + 1, 7 * (i + 1), next);
      } else {
        MeaningOfNone(data, pos, i, value);
      }
    } else {
      MeaningOfNone(data, pos, i, value);
    }
  }

  lemma ReadVarintMeaning(data: Bytes, pos: nat)
    requires pos <= |data|
    ensures var k := Continuations(data, pos);
            ReadVarint(data, pos) ==
            if k <= 9 && pos + k < |data| then (Some(Base128(data[pos..pos + k + 1]) % U64_LIMIT), pos + k + 1)
            else (None, pos + if k < 10 then k else 10)
  {
    ReadFromMeaning(data, pos, 0, 0);
  }

  /** The encoder. */
  function Varint(v: nat): (out: Bytes)
    ensures |out| > 0
  {
    if v < 128 then [v] else [v % 128 + 128] + Varint(v / 128)
  }

  /** `part` lies in `data` at `pos`. */
  predicate At(data: Bytes, pos: nat, part: Bytes) {
    pos + |part| <= |data| && data[pos..pos + |part|] == part
  }

  lemma AtTail(data: Bytes, pos: nat, first: Bytes, second: Bytes)
    requires At(data, pos, first + second)
    ensures At(data, pos, first) && At(data, pos + |first|, second)
  {
    assert data[pos..pos + |first|] == (first + second)[..|first|];
    assert data[pos + |first|..pos + |first| + |second|] == (first + second)[|first|..];
  }

  lemma {:induction false} VarintGroup(data: Bytes, pos: nat, v: nat)
    requires At(data, pos, Varint(v))
    ensures Continuations(data, pos) == |Varint(v)| - 1 && Base128(Varint(v)) == v
    decreases v
  {
    assert data[pos] == Varint(v)[0];
    if v >= 128 {
      AtTail(data, pos, [v % 128 + 128], Varint(v / 128));
      VarintGroup(data, pos + 1, v / 128);
      assert Varint(v)[1..] == Varint(v / 128);
    }
  }

  lemma {:induction false} VarintLength(v: nat, n: nat)
    requires n > 0 && v < Pow2(7 * n)
    ensures |Varint(v)| <= n
    decreases n
  {
    if v >= 128 {
      Pow2Known();
      assert n > 1;
      Pow2Sum(7, 7 * (n - 1));
      assert v / 128 < Pow2(7 * (n - 1));
      VarintLength(v / 128, n - 1);
    }
  }

  lemma VarintAtMostTen(v: U64)
    ensures |Varint(v)| <= 10
  {
    hide Pow2, Varint;
    Pow2Known();
    Pow2Monotone(64, 70);
    VarintLength(v, 10);
  }

  /** Reading the encoding of any u64 gives it back and stops right behind it, whatever follows. */
  lemma VarintRoundTrip(data: Bytes, pos: nat, v: U64)
    requires At(data, pos, Varint(v))
    ensures ReadVarint(data, pos) == (Some(v), pos + |Varint(v)|)
  {
    hide ReadVarint, Varint, Base128, Continuations;
    VarintGroup(data, pos, v);
    VarintAtMostTen(v);
    ReadVarintMeaning(data, pos);
  }

  // ---- fields ----

  function NextField(data: Bytes, pos: nat): (r: (Option<Field>, nat))
    requires pos <= |data|
    ensures pos <= r.1 <= |data| && (r.0.Some? ==> pos < r.1)
  {
    var (key, start) := ReadVarint(data, pos);
    if key == None then (None, start) else FieldBody(data, start, key.value / 8, key.value % 8)
  }

  /** What follows a key, by its wire type. */
  function FieldBody(data: Bytes, start: nat, number: U64, wireType: nat): (r: (Option<Field>, nat))
    requires start <= |data|
    ensures start <= r.1 <= |data|
  {
    match wireType
    case 0 =>
      var (value, end) := ReadVarint(data, start);
      (if value == None then None else Some(VarintField(number, value.value)), end)
    case 1 => if FitsIn(data, start, 8) then (Some(Fixed64), start + 8) else (None, start)
    case 2 =>
      var (length, body) := ReadVarint(data, start);
      if length == None || !FitsIn(data, body, length.value) then (None, body)
      else (Some(LengthDelimited(number, data[body..body + length.value])), body + length.value)
    case 5 => if FitsIn(data, start, 4) then (Some(Fixed32), start + 4) else (None, start)
    case _ => (None, start)
  }

  /** The checked addition does not overflow and the end is inside the data. */
  predicate FitsIn(data: Bytes, pos: nat, length: nat) {
    pos + length < U64_LIMIT && pos + length <= |data|
  }

  /** Everything the iterator yields from `pos` on. */
  function Fields(data: Bytes, pos: nat): seq<Field>
    requires pos <= |data|
    decreases |data| - pos
  {
    var (field, end) := NextField(data, pos);
    if field == None then [] else [field.value] + Fields(data, end)
  }

  function FindVarint(fields: seq<Field>, number: nat): Option<U64> {
    if fields == [] then None
    else if fields[0].VarintField? && fields[0].number == number then Some(fields[0].value)
    else FindVarint(fields[1..], number)
  }

  function FindBytes(fields: seq<Field>, number: nat): Option<Bytes> {
    if fields == [] then None
    else if fields[0].LengthDelimited? && fields[0].number == number then Some(fields[0].bytes)
    else FindBytes(fields[1..], number)
  }

  const I64_MAX: nat := 0x7FFF_FFFF_FFFF_FFFF

  function Clamp(v: Option<U64>): Option<nat> {
    match v
    case None => None
    case Some(x) => Some(if x < I64_MAX then x else I64_MAX)
  }
}
