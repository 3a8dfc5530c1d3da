/** Encoding fields and reading them back: lists, nested messages, and data cut short. */
module ProtoCodec {
  import opened Bits
  import opened Wrappers
  import opened ProtoWire

  /** The numbers whose key fits into 64 bits. */
  type Number = n: nat | n < 0x2000_0000_0000_0000

  type Four = b: Bytes | |b| == 4 witness [0, 0, 0, 0]
  type Eight = b: Bytes | |b| == 8 witness [0, 0, 0, 0, 0, 0, 0, 0]

  datatype Item =
    | Int(number: Number, value: U64)
    | Chunk(number: Number, bytes: Bytes)
    | Word32(number: Number, word: Four)
    | Word64(number: Number, long: Eight)

  /** `(number << 3) | wire_type` as a varint */
  function Key(number: nat, wireType: nat): Bytes {
    Varint(BitOr(ShiftLeft(number, 3), wireType))
  }

  function Encode(item: Item): (out: Bytes)
    ensures |out| > 0
  {
    match item
    case Int(number, value) => Key(number, 0) + Varint(value)
    case Chunk(number, bytes) => Key(number, 2) + (Varint(|bytes|) + bytes)
    case Word32(number, word) => Key(number, 5) + word
    case Word64(number, long) => Key(number, 1) + long
  }

  function EncodeAll(items: seq<Item>): Bytes {
    if items == [] then [] else Encode(items[0]) + EncodeAll(items[1..])
  }

  /** What the iterator reports of an item; of a fixed-width one only its width. */
  function Seen(item: Item): Field {
    match item
    case Int(number, value) => VarintField(number, value)
    case Chunk(number, bytes) => LengthDelimited(number, bytes)
    case Word32(_, _) => Fixed32
    case Word64(_, _) => Fixed64
  }

  function SeenAll(items: seq<Item>): seq<Field> {
    if items == [] then [] else [Seen(items[0])] + SeenAll(items[1..])
  }

  lemma KeyValue(number: Number, wireType: nat)
    requires wireType < 8
    ensures Key(number, wireType) == Varint(number * 8 + wireType)
  {
    hide BitOr, ShiftLeft, Varint, Pow2;
    Pow2Known();
    OrBelowShiftedIsSum(number, wireType, 3);
  }

  lemma KeySplits(data: Bytes, pos: nat, start: nat, number: Number, wireType: nat)
    requires wireType < 8 && pos <= start <= |data|
    requires ReadVarint(data, pos) == (Some(number * 8 + wireType), start)
    ensures NextField(data, pos) == FieldBody(data, start, number, wireType)
  {
    hide ReadVarint, FieldBody;
  }

  lemma KeyIsRead(data: Bytes, pos: nat, number: Number, wireType: nat, body: Bytes)
    requires wireType < 8 && At(data, pos, Key(number, wireType) + body)
    ensures var start := pos + |Key(number, wireType)|;
            At(data, start, body) && NextField(data, pos) == FieldBody(data, start, number, wireType)
  {
    hide NextField, FieldBody, Key, Varint;
    KeyValue(number, wireType);
    AtTail(data, pos, Key(number, wireType), body);
    VarintRoundTrip(data, pos, number * 8 + wireType);
    KeySplits(data, pos, pos + |Key(number, wireType)|, number, wireType);
  }

  lemma IntBody(data: Bytes, start: nat, number: Number, value: U64)
    requires At(data, start, Varint(value))
    ensures FieldBody(data, start, number, 0) == (Some(VarintField(number, value)), start + |Varint(value)|)
  {
    hide ReadVarint, Varint, At;
    VarintRoundTrip(data, start, value);
  }

  lemma ChunkBody(data: Bytes, start: nat, number: Number, bytes: Bytes)
    requires At(data, start, Varint(|bytes|) + bytes) && |data| < U64_LIMIT
    ensures FieldBody(data, start, number, 2) ==
            (Some(LengthDelimited(number, bytes)), start + |Varint(|bytes|) + bytes|)
  {
    hide ReadVarint, Varint;
    AtTail(data, start, Varint(|bytes|), bytes);
    VarintRoundTrip(data, start, |bytes|);
  }

  lemma WordBody(data: Bytes, start: nat, number: Number, wireType: nat, word: Bytes)
    requires (wireType == 5 && |word| == 4) || (wireType == 1 && |word| == 8)
    requires At(data, start, word) && |data| < U64_LIMIT
    ensures FieldBody(data, start, number, wireType) ==
            (Some(if wireType == 5 then Fixed32 else Fixed64), start + |word|)
  {
  }

  /** The iterator reads one encoded item and stops right behind it. */
  lemma ItemIsRead(data: Bytes, pos: nat, item: Item)
    requires At(data, pos, Encode(item)) && |data| < U64_LIMIT
    ensures NextField(data, pos) == (Some(Seen(item)), pos + |Encode(item)|)
  {
    hide NextField, FieldBody, Key, Varint, At;
    match item
    case Int(number, value) =>
      KeyIsRead(data, pos, number, 0, Varint(value));
      IntBody(data, pos + |Key(number, 0)|, number, value);
    case Chunk(number, bytes) =>
      KeyIsRead(data, pos, number, 2, Varint(|bytes|) + bytes);
      ChunkBody(data, pos + |Key(number, 2)|, number, bytes);
    case Word32(number, word) =>
      KeyIsRead(data, pos, number, 5, word);
      WordBody(data, pos + |Key(number, 5)|, number, 5, word);
    case Word64(number, long) =>
      KeyIsRead(data, pos, number, 1, long);
      WordBody(data, pos + |Key(number, 1)|, number, 1, long);
  }

  lemma NoFieldsAtEnd(data: Bytes)
    ensures Fields(data, |data|) == []
  {
  }

  lemma SplitsOff(data: Bytes, pos: nat, first: Bytes, rest: Bytes)
    requires pos <= |data| && data[pos..] == first + rest
    ensures At(data, pos, first) && data[pos + |first|..] == rest
  {
    assert data[pos..pos + |first|] == data[pos..][..|first|];
    assert data[pos + |first|..] == data[pos..][|first|..];
  }

  lemma FieldsStep(data: Bytes, pos: nat, field: Field, end: nat)
    requires pos <= |data| && NextField(data, pos) == (Some(field), end)
    ensures end <= |data| && Fields(data, pos) == [field] + Fields(data, end)
  {
    hide NextField;
  }

  lemma FieldsOfFirst(data: Bytes, pos: nat, item: Item, rest: Bytes)
    requires pos <= |data| < U64_LIMIT && data[pos..] == Encode(item) + rest
    ensures var end := pos + |Encode(item)|;
            end <= |data| && data[end..] == rest && Fields(data, pos) == [Seen(item)] + Fields(data, end)
  {
    hide *;
    SplitsOff(data, pos, Encode(item), rest);
    ItemIsRead(data, pos, item);
    FieldsStep(data, pos, Seen(item), pos + |Encode(item)|);
  }

  lemma {:induction false} FieldsOfEncoded(data: Bytes, pos: nat, items: seq<Item>)
    requires pos <= |data| < U64_LIMIT && data[pos..] == EncodeAll(items)
    ensures Fields(data, pos) == SeenAll(items)
    decreases |items|
  {
    hide NextField, Encode;
    if items == [] {
      NoFieldsAtEnd(data);
    } else {
      var end := pos + |Encode(items[0])|;
      assert end <= |data| && data[end..] == EncodeAll(items[1..])
             && Fields(data, pos) == [Seen(items[0])] + Fields(data, end) by {
        FieldsOfFirst(data, pos, items[0], EncodeAll(items[1..]));
      }
      FieldsOfEncoded(data, end, items[1..]);
    }
  }

  /** Encoding any list of items and iterating gives back exactly that list. */
  lemma FieldsRoundTrip(items: seq<Item>)
    requires |EncodeAll(items)| < U64_LIMIT
    ensures Fields(EncodeAll(items), 0) == SeenAll(items)
  {
    assert EncodeAll(items)[0..] == EncodeAll(items);
    FieldsOfEncoded(EncodeAll(items), 0, items);
  }

  // ---- lookups ----

  /** The first integer with that number: no earlier item is one. */
  predicate FirstInt(items: seq<Item>, number: nat, i: nat) {
    && i < |items| && items[i].Int? && items[i].number == number
    && forall j :: 0 <= j < i ==> !(items[j].Int? && items[j].number == number)
  }

  predicate FirstChunk(items: seq<Item>, number: nat, i: nat) {
    && i < |items| && items[i].Chunk? && items[i].number == number
    && forall j :: 0 <= j < i ==> !(items[j].Chunk? && items[j].number == number)
  }

  lemma {:induction false} FindsFirstInt(items: seq<Item>, number: nat)
    ensures match FindVarint(SeenAll(items), number)
            case None => forall i :: 0 <= i < |items| ==> !(items[i].Int? && items[i].number == number)
            case Some(v) => exists i: nat :: FirstInt(items, number, i) && items[i].value == v
    decreases |items|
  {
    if items != [] {
      assert SeenAll(items)[1..] == SeenAll(items[1..]);
      if items[0].Int? && items[0].number == number {
        assert FirstInt(items, number, 0);
      } else {
        FindsFirstInt(items[1..], number);
        var found := FindVarint(SeenAll(items[1..]), number);
        if found.Some? {
          var i: nat :| FirstInt(items[1..], number, i) && items[1..][i].value == found.value;
          assert FirstInt(items, number, i + 1);
        }
      }
    }
  }

  lemma {:induction false} FindsFirstChunk(items: seq<Item>, number: nat)
    ensures match FindBytes(SeenAll(items), number)
            case None => forall i :: 0 <= i < |items| ==> !(items[i].Chunk? && items[i].number == number)
            case Some(b) => exists i: nat :: FirstChunk(items, number, i) && items[i].bytes == b
    decreases |items|
  {
    if items != [] {
      assert SeenAll(items)[1..] == SeenAll(items[1..]);
      if items[0].Chunk? && items[0].number == number {
        assert FirstChunk(items, number, 0);
      } else {
        FindsFirstChunk(items[1..], number);
        var found := FindBytes(SeenAll(items[1..]), number);
        if found.Some? {
          var i: nat :| FirstChunk(items[1..], number, i) && items[1..][i].bytes == found.value;
          assert FirstChunk(items, number, i + 1);
        }
      }
    }
  }

  /** What an integer lookup must give: nothing exactly when no integer has the number, else the first one's value,
      or the largest i64 when it is larger than that. */
  ghost predicate IsFirstI64(items: seq<Item>, number: nat, r: Option<nat>) {
    && (r == None <==> forall i :: 0 <= i < |items| ==> !(items[i].Int? && items[i].number == number))
    && forall i: nat :: FirstInt(items, number, i) ==>
         r == Some(if items[i].value < 0x8000_0000_0000_0000 then items[i].value else 0x7FFF_FFFF_FFFF_FFFF)
  }

  /** What a message lookup must give: nothing exactly when no chunk has the number, else the first one's bytes. */
  ghost predicate IsFirstMessage(items: seq<Item>, number: nat, r: Option<Bytes>) {
    && (r == None <==> forall i :: 0 <= i < |items| ==> !(items[i].Chunk? && items[i].number == number))
    && forall i: nat :: FirstChunk(items, number, i) ==> r == Some(items[i].bytes)
  }

  lemma LookupsOfEncoded(items: seq<Item>, number: nat)
    requires |EncodeAll(items)| < U64_LIMIT
    ensures IsFirstI64(items, number, Clamp(FindVarint(Fields(EncodeAll(items), 0), number)))
    ensures IsFirstMessage(items, number, FindBytes(Fields(EncodeAll(items), 0), number))
  {
    FieldsRoundTrip(items);
    FindsFirstInt(items, number);
    FindsFirstChunk(items, number);
  }

  /** A key of a group or of an unknown wire type ends the iteration. */
  lemma UnknownTypeStops(data: Bytes, pos: nat, number: Number, wireType: nat)
    requires wireType == 3 || wireType == 4 || wireType == 6 || wireType == 7
    requires At(data, pos, Key(number, wireType))
    ensures Fields(data, pos) == []
  {
    hide Key, Varint, At;
    assert Key(number, wireType) + [] == Key(number, wireType);
    KeyIsRead(data, pos, number, wireType, []);
  }

  /** Follow first messages along a path of field numbers, as chained lookups do. */
  function Descend(data: Bytes, path: seq<nat>): Option<Bytes>
    decreases |path|
  {
    if path == [] then Some(data)
    else
      match FindBytes(Fields(data, 0), path[0])
      case None => None
      case Some(inner) => Descend(inner, path[1..])
  }

  /** `inner` is the message found along `path` when every step takes the first chunk of its number. */
  ghost predicate NestedAt(items: seq<Item>, path: seq<nat>, inner: seq<Item>)
    decreases |path|
  {
    if path == [] then items == inner
    else
      exists i: nat, mid ::
        FirstChunk(items, path[0], i) && items[i].bytes == EncodeAll(mid) && NestedAt(mid, path[1..], inner)
  }

  lemma {:induction false} EncodedPartIsShorter(items: seq<Item>, i: nat)
    requires i < |items| && items[i].Chunk?
    ensures |items[i].bytes| < |EncodeAll(items)|
    decreases i
  {
    if i > 0 {
      EncodedPartIsShorter(items[1..], i - 1);
    }
  }

  /** Chained lookups find the message nested at any depth, and reading it gives its own items. */
  lemma {:induction false} NestedLookup(items: seq<Item>, path: seq<nat>, inner: seq<Item>)
    requires NestedAt(items, path, inner) && |EncodeAll(items)| < U64_LIMIT
    ensures Descend(EncodeAll(items), path) == Some(EncodeAll(inner))
    ensures Fields(EncodeAll(inner), 0) == SeenAll(inner)
    decreases |path|
  {
    FieldsRoundTrip(items);
    if path != [] {
      var i: nat, mid :|
        FirstChunk(items, path[0], i) && items[i].bytes == EncodeAll(mid) && NestedAt(mid, path[1..], inner);
      FindsFirstChunk(items, path[0]);
      var found := FindBytes(SeenAll(items), path[0]);
      var j: nat :| FirstChunk(items, path[0], j) && items[j].bytes == found.value;
      assert i == j;
      EncodedPartIsShorter(items, i);
      NestedLookup(mid, path[1..], inner);
    }
  }

  // ---- data cut short ----

  lemma {:induction false} ReadFromOfPrefix(data: Bytes, n: nat, pos: nat, shift: nat, value: U64)
    requires pos <= n <= |data|
    ensures ReadFrom(data[..n], pos, shift, value).0.Some? ==>
              ReadFrom(data[..n], pos, shift, value) == ReadFrom(data, pos, shift, value)
    decreases n - pos
  {
    if pos < n && shift < 64 && data[pos] >= 128 {
      ReadFromOfPrefix(data, n, pos + 1, shift + 7, Accumulate(value, data[pos] % 128, shift));
    }
  }

  lemma NextFieldOfPrefix(data: Bytes, n: nat, pos: nat)
    requires pos <= n <= |data|
    ensures NextField(data[..n], pos).0.Some? ==> NextField(data[..n], pos) == NextField(data, pos)
  {
    var cut := data[..n];
    ReadFromOfPrefix(data, n, pos, 0, 0);
    var start := ReadVarint(cut, pos).1;
    ReadFromOfPrefix(data, n, start, 0, 0);
    var (length, body) := ReadVarint(cut, start);
    if length.Some? && body + length.value <= n {
      assert cut[body..body + length.value] == data[body..body + length.value];
    }
  }

  /** The fields read from any prefix of the data are a prefix of the fields read from all of it. */
  lemma {:induction false} FieldsOfPrefix(data: Bytes, n: nat, pos: nat)
    requires pos <= n <= |data|
    ensures Fields(data[..n], pos) <= Fields(data, pos)
    decreases n - pos
  {
    NextFieldOfPrefix(data, n, pos);
    var (field, end) := NextField(data[..n], pos);
    if field.Some? {
      FieldsOfPrefix(data, n, end);
    }
  }
}
