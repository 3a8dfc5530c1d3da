/** The string operations the sources use: trimming, lines, words, prefixes and decimal numbers. */
module Text {
  import opened Wrappers

  predicate StartsWith(s: string, prefix: string) {
    prefix <= s
  }

  lemma SignedPrefix(sign: string, text: string, prefix: string)
    requires |sign| == 1
    ensures StartsWith(sign + text, sign + prefix) <==> StartsWith(text, prefix)
  {
    assert (sign + text)[1..] == text && (sign + prefix)[1..] == prefix;
    if StartsWith(sign + text, sign + prefix) {
      assert (sign + text)[..1 + |prefix|][1..] == text[..|prefix|];
    }
    if StartsWith(text, prefix) {
      assert (sign + text)[..1 + |prefix|] == sign + text[..|prefix|];
    }
  }

  predicate Contains(s: string, part: string) {
    StartsWith(s, part) || (s != "" && Contains(s[1..], part))
  }

  lemma {:induction false} ContainsIff(s: string, part: string)
    ensures Contains(s, part) <==> exists i: nat :: i <= |s| && part <= s[i..]
  {
    assert s[0..] == s;
    if s != "" {
      ContainsIff(s[1..], part);
      assert forall i: nat :: 1 <= i <= |s| ==> s[i..] == s[1..][i - 1..];
    }
  }

  /** Unicode's White_Space property. */
  predicate IsWhitespace(c: char) {
    || '\U{0009}' <= c <= '\U{000D}' || c == ' ' || c == '\U{0085}' || c == '\U{00A0}' || c == '\U{1680}'
    || '\U{2000}' <= c <= '\U{200A}' || c == '\U{2028}' || c == '\U{2029}' || c == '\U{202F}'
    || c == '\U{205F}' || c == '\U{3000}'
  }

  function TrimStart(s: string): string {
    if s != "" && IsWhitespace(s[0]) then TrimStart(s[1..]) else s
  }

  function TrimEnd(s: string): string {
    if s != "" && IsWhitespace(s[|s| - 1]) then TrimEnd(s[..|s| - 1]) else s
  }

  function Trim(s: string): string {
    TrimEnd(TrimStart(s))
  }

  lemma {:induction false} TrimEndShape(s: string)
    ensures TrimEnd(s) <= s
    ensures TrimEnd(s) != "" ==> !IsWhitespace(TrimEnd(s)[|TrimEnd(s)| - 1])
  {
    if s != "" && IsWhitespace(s[|s| - 1]) {
      TrimEndShape(s[..|s| - 1]);
    }
  }

  lemma {:induction false} TrimStartShape(s: string)
    ensures TrimStart(s) != "" ==> !IsWhitespace(TrimStart(s)[0])
  {
    if s != "" && IsWhitespace(s[0]) {
      TrimStartShape(s[1..]);
    }
  }

  lemma TrimTwice(s: string)
    ensures Trim(Trim(s)) == Trim(s)
  {
    TrimStartShape(s);
    TrimEndShape(TrimStart(s));
  }

  /** The first position of `c`, or the length. */
  function IndexOf(s: string, c: char): (i: nat)
    ensures i <= |s| && c !in s[..i] && (i < |s| ==> s[i] == c)
  {
    if s == "" || s[0] == c then 0
    else
      var i := 1 + IndexOf(s[1..], c);
      assert s[..i] == [s[0]] + s[1..][..i - 1];
      i
  }

  lemma IndexOfFirst(before: string, c: char, after: string)
    requires c !in before
    ensures IndexOf(before + [c] + after, c) == |before|
    ensures IndexOf(before, c) == |before|
  {
    var s := before + [c] + after;
    var i := IndexOf(s, c);
    assert s[|before|] == c;
    assert before == s[..|before|];
  }

  function StripCarriageReturn(s: string): string {
    if s != "" && s[|s| - 1] == '\r' then s[..|s| - 1] else s
  }

  /** Rust's `lines`: each line without its "\n" or "\r\n"; no empty line after a final newline. */
  function Lines(s: string): seq<string>
    decreases |s|
  {
    var i := IndexOf(s, '\n');
    if i == |s| then (if s == "" then [] else [s])
    else [StripCarriageReturn(s[..i])] + Lines(s[i + 1..])
  }

  function Unlines(lines: seq<string>): string {
    if lines == [] then "" else lines[0] + "\n" + Unlines(lines[1..])
  }

  function StripAll(lines: seq<string>): seq<string> {
    seq(|lines|, i requires 0 <= i < |lines| => StripCarriageReturn(lines[i]))
  }

  lemma {:induction false} LinesOfUnlines(lines: seq<string>)
    requires forall i :: 0 <= i < |lines| ==> '\n' !in lines[i]
    ensures Lines(Unlines(lines)) == StripAll(lines)
  {
    if lines != [] {
      var s := Unlines(lines);
      IndexOfFirst(lines[0], '\n', Unlines(lines[1..]));
      assert s == lines[0] + ['\n'] + Unlines(lines[1..]);
      LinesOfUnlines(lines[1..]);
      assert s[..|lines[0]|] == lines[0] && s[|lines[0]| + 1..] == Unlines(lines[1..]);
      assert StripAll(lines) == [StripCarriageReturn(lines[0])] + StripAll(lines[1..]);
    }
  }

  /** A line ends at a newline; one carriage return before it goes with it. */
  lemma LineEnds(line: string, rest: string)
    requires '\n' !in line
    ensures Lines(line + ['\r'] + ['\n'] + rest) == [line] + Lines(rest)
    ensures (line != "" ==> line[|line| - 1] != '\r') ==> Lines(line + ['\n'] + rest) == [line] + Lines(rest)
  {
    var s, t := line + ['\r'] + ['\n'] + rest, line + ['\n'] + rest;
    IndexOfFirst(line + ['\r'], '\n', rest);
    IndexOfFirst(line, '\n', rest);
    assert s[..|line| + 1] == line + ['\r'] && s[|line| + 2..] == rest && (line + ['\r'])[..|line|] == line;
    assert t[..|line|] == line && t[|line| + 1..] == rest;
  }

  function Concat(parts: seq<string>): string {
    if parts == [] then "" else Concat(parts[..|parts| - 1]) + parts[|parts| - 1]
  }

  // ---- words ----

  function WordEnd(s: string): (i: nat)
    ensures i <= |s| && forall j :: 0 <= j < i ==> !IsWhitespace(s[j])
    ensures i < |s| ==> IsWhitespace(s[i])
  {
    if s == "" || IsWhitespace(s[0]) then 0 else 1 + WordEnd(s[1..])
  }

  lemma {:induction false} TrimStartShrinks(s: string)
    ensures |TrimStart(s)| <= |s|
  {
    if s != "" && IsWhitespace(s[0]) {
      TrimStartShrinks(s[1..]);
    }
  }

  /** Rust's `split_whitespace`. */
  function Words(s: string): seq<string>
    decreases |s|
  {
    TrimStartShrinks(s);
    TrimStartShape(s);
    var t := TrimStart(s);
    if t == "" then [] else [t[..WordEnd(t)]] + Words(t[WordEnd(t)..])
  }

  predicate IsWord(s: string) {
    s != "" && forall i :: 0 <= i < |s| ==> !IsWhitespace(s[i])
  }

  lemma WordFirst(word: string, rest: string)
    requires IsWord(word) && (rest != "" ==> IsWhitespace(rest[0]))
    ensures Words(word + rest) == [word] + Words(rest)
  {
    var s := word + rest;
    assert !IsWhitespace(s[0]);
    var end := WordEnd(s);
    assert forall j :: 0 <= j < |word| ==> s[j] == word[j];
    assert s[|word|..] == rest;
    assert s[..end] == word && s[end..] == rest;
  }

  lemma SpaceFirst(s: string)
    ensures Words(" " + s) == Words(s)
  {
    assert (" " + s)[1..] == s;
  }

  // ---- decimal numbers ----

  const USIZE_LIMIT: nat := 0x1_0000_0000_0000_0000

  predicate IsDigit(c: char) {
    '0' <= c <= '9'
  }

  function Digit(d: nat): char
    requires d < 10
  {
    '0' + d as char
  }

  function Decimal(n: nat): string {
    if n < 10 then [Digit(n)] else Decimal(n / 10) + [Digit(n % 10)]
  }

  function DigitsValue(s: string): Option<nat> {
    if s == "" then Some(0)
    else
      var last := s[|s| - 1];
      match DigitsValue(s[..|s| - 1])
      case None => None
      case Some(v) => if IsDigit(last) then Some(10 * v + (last - '0') as nat) else None
  }

  /** `parse::<usize>`: an optional plus sign, then digits, within 64 bits. */
  function ParseUsize(s: string): Option<nat> {
    var digits := if s != "" && s[0] == '+' then s[1..] else s;
    var value := DigitsValue(digits);
    if digits == "" || value == None || value.value >= USIZE_LIMIT then None else value
  }

  lemma {:induction false} DecimalIsDigits(n: nat)
    ensures Decimal(n) != "" && DigitsValue(Decimal(n)) == Some(n)
    ensures forall i :: 0 <= i < |Decimal(n)| ==> IsDigit(Decimal(n)[i])
  {
    if n < 10 {
      assert Decimal(n)[..0] == "";
    } else {
      DecimalIsDigits(n / 10);
      assert Decimal(n)[..|Decimal(n)| - 1] == Decimal(n / 10);
    }
  }

  lemma DecimalRoundTrip(n: nat)
    requires n < USIZE_LIMIT
    ensures ParseUsize(Decimal(n)) == Some(n)
  {
    DecimalIsDigits(n);
    assert IsDigit(Decimal(n)[0]);
  }

  /** Only digits behind an optional plus sign are a number, and none is as large as 2^64. */
  lemma ParseUsizeIs(s: string)
    ensures var digits := if s != "" && s[0] == '+' then s[1..] else s;
            ParseUsize(s).Some? <==>
              digits != "" && DigitsValue(digits).Some? && DigitsValue(digits).value < 0x1_0000_0000_0000_0000
    ensures ParseUsize(s).Some? ==> ParseUsize(s).value < 0x1_0000_0000_0000_0000
  {
  }

  // ---- UTF-8 lengths ----

  /** The number of bytes of a character in UTF-8, and of a string. */
  function CharBytes(c: char): nat {
    if c < '\U{80}' then 1 else if c < '\U{800}' then 2 else if c < '\U{10000}' then 3 else 4
  }

  function Bytes(s: string): nat {
    if s == "" then 0 else Bytes(s[..|s| - 1]) + CharBytes(s[|s| - 1])
  }

  lemma {:induction false} BytesOfConcat(a: string, b: string)
    ensures Bytes(a + b) == Bytes(a) + Bytes(b)
    decreases |b|
  {
    if b == "" {
      assert a + b == a;
    } else {
      assert (a + b)[..|a + b| - 1] == a + b[..|b| - 1];
      BytesOfConcat(a, b[..|b| - 1]);
    }
  }

  lemma {:induction false} AsciiBytes(s: string)
    requires forall i :: 0 <= i < |s| ==> s[i] < '\U{80}'
    ensures Bytes(s) == |s|
  {
    if s != "" {
      AsciiBytes(s[..|s| - 1]);
    }
  }
}
