/** UTF-8: encoding characters, and decoding that accepts encodings of characters and nothing else. */
module Utf8 {
  import opened Bits
  import opened Wrappers
  import opened Text

  type Octets = seq<Byte>

  predicate IsContinuation(b: Byte) {
    128 <= b < 192
  }

  function Encode(c: char): (bytes: Octets)
    ensures |bytes| == CharBytes(c) > 0 && !IsContinuation(bytes[0])
    ensures forall i :: 1 <= i < |bytes| ==> IsContinuation(bytes[i])
  {
    var v := c as int;
    if v < 0x80 then [v]
    else if v < 0x800 then [192 + v / 64, 128 + v % 64]
    else if v < 0x1_0000 then [224 + v / 64 / 64, 128 + v / 64 % 64, 128 + v % 64]
    else [240 + v / 64 / 64 / 64, 128 + v / 64 / 64 % 64, 128 + v / 64 % 64, 128 + v % 64]
  }

  function EncodeAll(s: string): Octets {
    if s == "" then [] else Encode(s[0]) + EncodeAll(s[1..])
  }

  /** How many bytes the first byte announces; 0 for one that starts no character. */
  function Announced(b: Byte): nat {
    if b < 128 then 1 else if b < 192 then 0 else if b < 224 then 2 else if b < 240 then 3 else if b < 248 then 4 else 0
  }

  /** A number with six more bits from a continuation byte. */
  function Append(value: nat, b: Byte): nat {
    value * 64 + b % 64
  }

  function Value(bytes: Octets): nat
    requires bytes != [] && |bytes| == Announced(bytes[0])
  {
    var b := bytes[0];
    if |bytes| == 1 then b
    else if |bytes| == 2 then Append(b % 32, bytes[1])
    else if |bytes| == 3 then Append(Append(b % 16, bytes[1]), bytes[2])
    else Append(Append(Append(b % 8, bytes[1]), bytes[2]), bytes[3])
  }

  /** The first character, when the data starts with the encoding of one. */
  function First(data: Octets): Option<char>
    requires data != []
  {
    var n := Announced(data[0]);
    if n == 0 || n > |data| then None
    else
      var v := Value(data[..n]);
      if v < 0xD800 || 0xE000 <= v < 0x11_0000 then
        (if Encode(v as char) == data[..n] then Some(v as char) else None)
      else None
  }

  function Decode(data: Octets): Option<string>
    decreases |data|
  {
    if data == [] then Some("")
    else
      match First(data)
      case None => None
      case Some(c) =>
        if |Encode(c)| > |data| then None
        else
          match Decode(data[|Encode(c)|..])
          case None => None
          case Some(rest) => Some([c] + rest)
  }

  lemma AppendLast(v: nat)
    ensures Append(v / 64, 128 + v % 64) == v
  {
  }

  lemma EncodeAnnounces(c: char)
    ensures Announced(Encode(c)[0]) == |Encode(c)| && Value(Encode(c)) == c as int
  {
    hide Append;
    var v := c as int;
    AppendLast(v);
    AppendLast(v / 64);
    AppendLast(v / 64 / 64);
  }

  lemma FirstOfEncoded(c: char, rest: Octets)
    ensures First(Encode(c) + rest) == Some(c)
  {
    hide Encode, Value, Announced;
    EncodeAnnounces(c);
    assert (Encode(c) + rest)[0] == Encode(c)[0];
    assert (Encode(c) + rest)[..|Encode(c)|] == Encode(c);
  }

  /** Decoding gives back what was encoded. */
  lemma {:induction false} DecodeRoundTrip(s: string)
    ensures Decode(EncodeAll(s)) == Some(s)
  {
    if s != "" {
      hide Encode, First;
      DecodeRoundTrip(s[1..]);
      FirstOfEncoded(s[0], EncodeAll(s[1..]));
      assert (Encode(s[0]) + EncodeAll(s[1..]))[|Encode(s[0])|..] == EncodeAll(s[1..]);
      assert [s[0]] + s[1..] == s;
    }
  }

  lemma FirstIsPrefix(data: Octets)
    requires data != []
    ensures First(data).Some? ==> Encode(First(data).value) <= data
  {
    hide Encode, Value;
  }

  /** Data decodes to a string exactly when it is the encoding of that string. */
  lemma {:induction false} DecodeIff(data: Octets, s: string)
    ensures Decode(data) == Some(s) <==> EncodeAll(s) == data
    decreases |data|
  {
    DecodeRoundTrip(s);
    if data != [] && Decode(data) == Some(s) {
      hide Encode, First;
      var c := First(data).value;
      FirstIsPrefix(data);
      var rest := data[|Encode(c)|..];
      assert s[0] == c && Decode(rest) == Some(s[1..]);
      DecodeIff(rest, s[1..]);
      assert data == Encode(c) + rest;
    }
  }

  // ---- cutting encoded text ----

  /** The number of characters before byte `start` when no character is cut there. */
  function CharsBefore(s: string, start: nat): Option<nat> {
    if start == 0 then Some(0)
    else if s == "" || start < |Encode(s[0])| then None
    else
      match CharsBefore(s[1..], start - |Encode(s[0])|)
      case None => None
      case Some(k) => Some(k + 1)
  }

  lemma {:induction false} EncodeAllSplits(a: string, b: string)
    ensures EncodeAll(a + b) == EncodeAll(a) + EncodeAll(b)
  {
    hide Encode;
    if a == "" {
      assert a + b == b;
    } else {
      assert (a + b)[1..] == a[1..] + b;
      EncodeAllSplits(a[1..], b);
    }
  }

  /** Byte `start` begins character `k` exactly when the first `k` characters take `start` bytes. */
  lemma {:induction false} CharsBeforeIff(s: string, start: nat, k: nat)
    requires k <= |s|
    ensures CharsBefore(s, start) == Some(k) <==> |EncodeAll(s[..k])| == start
  {
    hide Encode;
    if s != "" && k > 0 {
      assert s[..k][1..] == s[1..][..k - 1];
      if start >= |Encode(s[0])| {
        CharsBeforeIff(s[1..], start - |Encode(s[0])|, k - 1);
      }
    } else {
      assert s[..0] == "";
    }
  }

  lemma ContinuationIsNoStart(data: Octets)
    requires data != [] && IsContinuation(data[0])
    ensures Decode(data) == None
  {
  }

  /** The bytes from `start` on decode exactly when no character is cut there, and then to the characters left. */
  lemma {:induction false} TailDecodesIff(s: string, start: nat)
    requires start <= |EncodeAll(s)|
    ensures Decode(EncodeAll(s)[start..]) ==
            match CharsBefore(s, start)
            case None => None
            case Some(k) => if k <= |s| then Some(s[k..]) else None
    ensures CharsBefore(s, start).Some? ==> CharsBefore(s, start).value <= |s|
  {
    hide Encode, Decode;
    var data := EncodeAll(s);
    if start == 0 {
      assert data[0..] == data && s[0..] == s;
      DecodeRoundTrip(s);
    } else {
      var first, rest := Encode(s[0]), EncodeAll(s[1..]);
      EncodeShape(s[0]);
      if start < |first| {
        assert data[start..][0] == first[start];
        ContinuationIsNoStart(data[start..]);
      } else {
        assert data[start..] == rest[start - |first|..];
        TailDecodesIff(s[1..], start - |first|);
      }
    }
  }

  lemma EncodeShape(c: char)
    ensures |Encode(c)| > 0 && forall i :: 1 <= i < |Encode(c)| ==> IsContinuation(Encode(c)[i])
  {
  }
}
