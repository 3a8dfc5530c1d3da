/** The field iterator as it moves through the data, and the lookups built on it. */
module ProtoReader {
  import opened Bits
  import opened Wrappers
  import Wire = ProtoWire
  import opened ProtoWire
  import opened ProtoCodec

  /** The iterator and the two lookups, as they move through the data. */
  class ProtoFields {
    const data: Bytes
    var position: nat

    constructor (data: Bytes)
      ensures this.data == data && position == 0
    {
      this.data := data;
      position := 0;
    }

    method ReadVarint() returns (r: Option<U64>)
      requires position <= |data|
      modifies this
      ensures (r, position) == Wire.ReadVarint(data, old(position))
    {
      var value: U64 := 0;
      var shift := 0;
      while position < |data| && shift < 64
        invariant position <= |data|
        invariant ReadFrom(data, position, shift, value) == Wire.ReadVarint(data, old(position))
        decreases |data| - position
      {
        var byte := data[position];
        position := position + 1;
        value := Accumulate(value, byte % 128, shift);
        if byte < 128 {
          return Some(value);
        }
        shift := shift + 7;
      }
      return None;
    }

    method Next() returns (r: Option<Field>)
      requires position <= |data|
      modifies this
      ensures (r, position) == NextField(data, old(position))
    {
      var key := ReadVarint();
      if key == None {
        return None;
      }
      var number := key.value / 8;
      match key.value % 8 {
        case 0 =>
          var value := ReadVarint();
          return if value == None then None else Some(VarintField(number, value.value));
        case 1 =>
          if !FitsIn(data, position, 8) {
            return None;
          }
          position := position + 8;
          return Some(Fixed64);
        case 2 =>
          var length := ReadVarint();
          if length == None || !FitsIn(data, position, length.value) {
            return None;
          }
          var bytes := data[position..position + length.value];
          position := position + length.value;
          return Some(LengthDelimited(number, bytes));
        case 5 =>
          if !FitsIn(data, position, 4) {
            return None;
          }
          position := position + 4;
          return Some(Fixed32);
        case _ =>
          return None;
      }
    }
  }

  method FirstI64(data: Bytes, number: nat) returns (r: Option<nat>)
    ensures r == Clamp(FindVarint(Fields(data, 0), number))
    ensures forall items :: data == EncodeAll(items) && |data| < U64_LIMIT ==> IsFirstI64(items, number, r)
  {
    forall items | data == EncodeAll(items) && |data| < U64_LIMIT
      ensures IsFirstI64(items, number, Clamp(FindVarint(Fields(data, 0), number)))
    {
      LookupsOfEncoded(items, number);
    }
    var fields := new ProtoFields(data);
    var field := fields.Next();
    while field.Some? && !(field.value.VarintField? && field.value.number == number)
      invariant fields.data == data && fields.position <= |data|
      invariant FindVarint(Fields(data, 0), number) ==
                FindVarint((if field.Some? then [field.value] + Fields(data, fields.position) else []), number)
      decreases |data| - fields.position, field.Some?
    {
      field := fields.Next();
    }
    if field.Some? {
      return Clamp(Some(field.value.value));
    }
    return None;
  }

  method FirstMessage(data: Bytes, number: nat) returns (r: Option<Bytes>)
    ensures r == FindBytes(Fields(data, 0), number)
    ensures forall items :: data == EncodeAll(items) && |data| < U64_LIMIT ==> IsFirstMessage(items, number, r)
  {
    forall items | data == EncodeAll(items) && |data| < U64_LIMIT
      ensures IsFirstMessage(items, number, FindBytes(Fields(data, 0), number))
    {
      LookupsOfEncoded(items, number);
    }
    var fields := new ProtoFields(data);
    var field := fields.Next();
    while field.Some? && !(field.value.LengthDelimited? && field.value.number == number)
      invariant fields.data == data && fields.position <= |data|
      invariant FindBytes(Fields(data, 0), number) ==
                FindBytes((if field.Some? then [field.value] + Fields(data, fields.position) else []), number)
      decreases |data| - fields.position, field.Some?
    {
      field := fields.Next();
    }
    if field.Some? {
      return Some(field.value.bytes);
    }
    return None;
  }
}
