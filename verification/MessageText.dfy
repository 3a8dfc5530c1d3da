/** Collecting the texts of a JSON value, with a cap that is checked on entry only. */
module MessageText {
  import opened Sets
  import opened Text

  const MAX_JSON_DEPTH: nat := 10
  const MAX_TEXTS: nat := 16
  const MAX_ITEMS: nat := 32

  datatype Field = Field(key: string, value: Json)
  datatype Json = Str(text: string) | Arr(items: seq<Json>) | Obj(fields: seq<Field>) | Scalar

  function LowerAscii(s: string): string {
    seq(|s|, i requires 0 <= i < |s| => if 'A' <= s[i] <= 'Z' then s[i] - 'A' + 'a' else s[i])
  }

  predicate IsUseful(text: string) {
    var trimmed := Trim(text);
    || StartsWith(trimmed, "[omitted")
    || (Bytes(trimmed) >= 2 && !StartsWith(trimmed, "{") && !StartsWith(trimmed, "[") && LowerAscii(trimmed) != "null")
  }

  const TEXT_KEYS: set<string> := {
    "text", "content", "message", "output", "input", "summary", "title", "command", "stdout", "stderr",
    "output_text", "input_text"
  }

  predicate IsUnsafeKey(key: string) {
    var normalized := LowerAscii(key);
    || Contains(normalized, "image") || Contains(normalized, "screenshot") || Contains(normalized, "base64")
    || normalized == "dataurl" || normalized == "data_url" || normalized == "blob"
  }

  predicate IsSkippedKey(key: string) {
    key in {"role", "type", "call_id", "thinking", "signature"}
  }

  /** The value of the key, as in a JSON object, where keys are unique. */
  predicate IsOmittedObject(fields: seq<Field>) {
    exists f :: f in fields && f.key == "type" && f.value.Str?
                && f.value.text in {"thinking", "reasoning", "attachment"}
  }

  /** The texts gathered and the omitted items counted so far. */
  datatype Found = Found(texts: seq<string>, omitted: nat)

  function Push(found: Found, text: string): Found {
    if IsUseful(text) then found.(texts := found.texts + [text]) else found
  }

  function Omit(found: Found): Found {
    found.(omitted := found.omitted + 1)
  }

  function Collect(value: Json, depth: nat, found: Found): Found
    decreases value, 1
  {
    if depth > MAX_JSON_DEPTH || |found.texts| >= MAX_TEXTS then found
    else
      match value
      case Str(text) => Push(found, text)
      case Arr(items) =>
        CollectItems(if |items| > MAX_ITEMS then items[..MAX_ITEMS] else items, depth + 1,
                     if |items| > MAX_ITEMS then Omit(found) else found)
      case Obj(fields) =>
        if IsOmittedObject(fields) then Omit(found) else CollectFields(fields, depth + 1, found)
      case Scalar => found
  }

  function CollectItems(items: seq<Json>, depth: nat, found: Found): Found
    decreases items, 0
  {
    if items == [] then found else CollectItems(items[1..], depth, Collect(items[0], depth, found))
  }

  function CollectField(f: Field, depth: nat, found: Found): Found
    decreases f, 2
  {
    if IsUnsafeKey(f.key) then Omit(found)
    else if IsSkippedKey(f.key) then found
    else if f.key in TEXT_KEYS && f.value.Str? then Push(found, f.value.text)
    else Collect(f.value, depth, found)
  }

  function CollectFields(fields: seq<Field>, depth: nat, found: Found): Found
    decreases fields, 0
  {
    if fields == [] then found else CollectFields(fields[1..], depth, CollectField(fields[0], depth, found))
  }

  method CollectMessageText(value: Json, depth: nat, texts: seq<string>, omittedItems: nat)
    returns (all: seq<string>, omitted: nat)
    ensures Found(all, omitted) == Collect(value, depth, Found(texts, omittedItems))
    decreases value
  {
    hide IsUseful, IsUnsafeKey, IsSkippedKey;
    all, omitted := texts, omittedItems;
    if depth > MAX_JSON_DEPTH || |texts| >= MAX_TEXTS {
      return;
    }
    match value {
      case Str(text) =>
        if IsUseful(text) {
          all := all + [text];
        }
      case Arr(items) =>
        if |items| > MAX_ITEMS {
          omitted := omitted + 1;
        }
        var taken := if |items| > MAX_ITEMS then items[..MAX_ITEMS] else items;
        ghost var start := Found(all, omitted);
        assert taken[0..] == taken;
        for i := 0 to |taken|
          invariant CollectItems(taken[i..], depth + 1, Found(all, omitted)) == CollectItems(taken, depth + 1, start)
        {
          assert taken[i] in items && taken[i..][1..] == taken[i + 1..];
          all, omitted := CollectMessageText(taken[i], depth + 1, all, omitted);
        }
      case Obj(fields) =>
        if IsOmittedObject(fields) {
          omitted := omitted + 1;
          return;
        }
        ghost var start := Found(all, omitted);
        assert fields[0..] == fields;
        for i := 0 to |fields|
          invariant CollectFields(fields[i..], depth + 1, Found(all, omitted)) ==
                    CollectFields(fields, depth + 1, start)
        {
          assert fields[i..][1..] == fields[i + 1..];
          var key, child := fields[i].key, fields[i].value;
          if IsUnsafeKey(key) {
            omitted := omitted + 1;
            continue;
          }
          if IsSkippedKey(key) {
            continue;
          }
          if key in TEXT_KEYS && child.Str? {
            if IsUseful(child.text) {
              all := all + [child.text];
            }
            continue;
          }
          all, omitted := CollectMessageText(child, depth + 1, all, omitted);
        }
      case Scalar =>
    }
  }

  // ---- the bound ----

  predicate UniqueKeys(fields: seq<Field>) {
    forall i, j :: 0 <= i < j < |fields| ==> fields[i].key != fields[j].key
  }

  /** The keys of every object are unique. */
  predicate WellFormed(value: Json) {
    match value
    case Arr(items) => forall v :: v in items ==> WellFormed(v)
    case Obj(fields) => UniqueKeys(fields) && forall f :: f in fields ==> WellFormed(f.value)
    case _ => true
  }

  /** The most texts a call at this depth leaves, unless there were more before. */
  function Bound(depth: nat): nat
    requires depth <= MAX_JSON_DEPTH + 1
  {
    15 + 12 * (MAX_JSON_DEPTH + 1 - depth)
  }

  function Max(a: nat, b: nat): nat {
    if a < b then b else a
  }

  function TextKeyCount(fields: seq<Field>): nat {
    if fields == [] then 0 else (if fields[0].key in TEXT_KEYS then 1 else 0) + TextKeyCount(fields[1..])
  }

  function TextKeys(fields: seq<Field>): (keys: set<string>)
    ensures keys <= TEXT_KEYS && forall k :: k in keys ==> exists i :: 0 <= i < |fields| && fields[i].key == k
  {
    if fields == [] then {}
    else
      var rest := TextKeys(fields[1..]);
      assert forall i :: 0 <= i < |fields| - 1 ==> fields[1..][i] == fields[i + 1];
      if fields[0].key in TEXT_KEYS then {fields[0].key} + rest else rest
  }

  lemma {:induction false} TextKeyCountIsSize(fields: seq<Field>)
    requires UniqueKeys(fields)
    ensures TextKeyCount(fields) == |TextKeys(fields)|
  {
    hide TEXT_KEYS;
    if fields != [] {
      TextKeyCountIsSize(fields[1..]);
      assert fields[0].key !in TextKeys(fields[1..]);
    }
  }

  lemma TwelveTextKeys()
    ensures |TEXT_KEYS| == 12
  {
  }

  lemma AtMostTwelveTextKeys(fields: seq<Field>)
    requires UniqueKeys(fields)
    ensures TextKeyCount(fields) <= 12
  {
    hide TEXT_KEYS;
    TextKeyCountIsSize(fields);
    TwelveTextKeys();
    SubsetIsSmaller(TextKeys(fields), TEXT_KEYS);
  }

  /** Entered at depth d <= 11 with n texts, a call leaves at most max(n, 15 + 12 * (11 - d)) texts: the cap of
      16 does not hold for the keys of an object already entered. */
  lemma {:induction false} TextsAreBounded(value: Json, depth: nat, found: Found)
    requires WellFormed(value) && depth <= MAX_JSON_DEPTH + 1
    ensures |Collect(value, depth, found).texts| <= Max(|found.texts|, Bound(depth))
    decreases value, 1
  {
    hide IsUseful, IsUnsafeKey, IsSkippedKey, TextKeyCount;
    if depth <= MAX_JSON_DEPTH && |found.texts| < MAX_TEXTS {
      match value
      case Str(_) =>
      case Arr(items) =>
        ItemsAreBounded(if |items| > MAX_ITEMS then items[..MAX_ITEMS] else items, depth + 1,
                        if |items| > MAX_ITEMS then Omit(found) else found);
      case Obj(fields) =>
        FieldsAreBounded(fields, depth + 1, found);
        AtMostTwelveTextKeys(fields);
      case Scalar =>
    }
  }

  lemma {:induction false} ItemsAreBounded(items: seq<Json>, depth: nat, found: Found)
    requires (forall v :: v in items ==> WellFormed(v)) && depth <= MAX_JSON_DEPTH + 1
    ensures |CollectItems(items, depth, found).texts| <= Max(|found.texts|, Bound(depth))
    decreases items, 0
  {
    if items != [] {
      TextsAreBounded(items[0], depth, found);
      ItemsAreBounded(items[1..], depth, Collect(items[0], depth, found));
    }
  }

  lemma {:induction false} FieldsAreBounded(fields: seq<Field>, depth: nat, found: Found)
    requires (forall f :: f in fields ==> WellFormed(f.value)) && depth <= MAX_JSON_DEPTH + 1
    ensures |CollectFields(fields, depth, found).texts| <= Max(|found.texts|, Bound(depth)) + TextKeyCount(fields)
    decreases fields, 0
  {
    hide IsUseful, IsUnsafeKey, IsSkippedKey;
    if fields != [] {
      var f := fields[0];
      TextsAreBounded(f.value, depth, found);
      FieldsAreBounded(fields[1..], depth, CollectField(f, depth, found));
    }
  }

  // ---- the bound is reached, depth by depth ----

  /** The twelve text keys in a map's order, each with a useful text. */
  const TWELVE: seq<Field> := [
    Field("command", Str("ok")), Field("content", Str("ok")), Field("input", Str("ok")),
    Field("input_text", Str("ok")), Field("message", Str("ok")), Field("output", Str("ok")),
    Field("output_text", Str("ok")), Field("stderr", Str("ok")), Field("stdout", Str("ok")),
    Field("summary", Str("ok")), Field("text", Str("ok")), Field("title", Str("ok"))
  ]

  /** Objects nested `levels` deep, the inner one ahead of twelve texts. */
  function Nested(levels: nat): Json {
    if levels == 0 then Scalar else Obj([Field("a", Nested(levels - 1))] + TWELVE)
  }

  predicate IsTextField(f: Field) {
    f.key in TEXT_KEYS && !IsUnsafeKey(f.key) && !IsSkippedKey(f.key) && f.value.Str? && IsUseful(f.value.text)
  }

  lemma {:induction false} TextFieldsArePushed(fields: seq<Field>, depth: nat, found: Found)
    requires forall i :: 0 <= i < |fields| ==> IsTextField(fields[i])
    ensures |CollectFields(fields, depth, found).texts| == |found.texts| + |fields|
    decreases |fields|
  {
    hide IsUseful, IsUnsafeKey, IsSkippedKey;
    if fields != [] {
      assert IsTextField(fields[0]);
      TextFieldsArePushed(fields[1..], depth, CollectField(fields[0], depth, found));
    }
  }

  lemma OkIsUseful()
    ensures IsUseful("ok")
  {
    assert Trim("ok") == "ok";
    AsciiBytes("ok");
    assert LowerAscii("ok")[0] == 'o';
  }

  lemma LowerIsSame(s: string)
    requires forall i :: 0 <= i < |s| ==> !('A' <= s[i] <= 'Z')
    ensures LowerAscii(s) == s
  {
  }

  // Letters that keep a key clear of every unsafe word, where `barred` is 'g' or 'i'.
  predicate IsPlainKey(key: string, barred: char) {
    && key != "" && key[0] != 'd'
    && forall i :: 0 <= i < |key| ==>
         (key[i] == '_' || 'a' <= key[i] <= 'z') && key[i] != 'b' && key[i] != 'h' && key[i] != barred
  }

  // A string without one of its letters does not contain a word.
  lemma {:induction false} NoLetter(s: string, c: char, word: string)
    requires c in word && c !in s
    ensures !Contains(s, word)
  {
    if s != "" {
      NoLetter(s[1..], c, word);
    }
  }

  lemma PlainIsSafe(key: string, barred: char)
    requires IsPlainKey(key, barred) && (barred == 'g' || barred == 'i')
    ensures !IsUnsafeKey(key)
  {
    LowerIsSame(key);
    var image, blob, screenshot, base64 := "image", "blob", "screenshot", "base64";
    assert image[0] == 'i' && image[3] == 'g' && blob[0] == 'b' && screenshot[7] == 'h' && base64[0] == 'b';
    NoLetter(key, barred, image);
    NoLetter(key, 'h', screenshot);
    NoLetter(key, 'b', base64);
  }

  lemma FirstKeysAreSafe()
    ensures !IsUnsafeKey("command") && !IsUnsafeKey("content") && !IsUnsafeKey("input") && !IsUnsafeKey("message")
    ensures !IsUnsafeKey("input_text") && !IsUnsafeKey("output")
  {
    hide IsUnsafeKey;
    PlainIsSafe("command", 'g');
    PlainIsSafe("content", 'g');
    PlainIsSafe("input", 'g');
    PlainIsSafe("message", 'i');
    PlainIsSafe("input_text", 'g');
    PlainIsSafe("output", 'g');
  }

  lemma LastKeysAreSafe()
    ensures !IsUnsafeKey("output_text") && !IsUnsafeKey("stderr") && !IsUnsafeKey("stdout")
    ensures !IsUnsafeKey("summary") && !IsUnsafeKey("text") && !IsUnsafeKey("title")
  {
    hide IsUnsafeKey;
    PlainIsSafe("output_text", 'g');
    PlainIsSafe("stderr", 'g');
    PlainIsSafe("stdout", 'g');
    PlainIsSafe("summary", 'g');
    PlainIsSafe("text", 'g');
    PlainIsSafe("title", 'g');
  }

  // Tells the twelve keys apart and grows along the list.
  function Rank(key: string): int
    requires |key| >= 4
  {
    (key[0] as int * 16 + |key|) * 1000 + key[3] as int
  }

  lemma RanksGrow(i: nat)
    requires i + 1 < |TWELVE|
    ensures |TWELVE[i].key| >= 4 && |TWELVE[i + 1].key| >= 4 && Rank(TWELVE[i].key) < Rank(TWELVE[i + 1].key)
  {
  }

  lemma {:induction false} RanksGrowFar(i: nat, j: nat)
    requires i < j < |TWELVE|
    ensures |TWELVE[i].key| >= 4 && |TWELVE[j].key| >= 4 && Rank(TWELVE[i].key) < Rank(TWELVE[j].key)
    decreases j
  {
    hide TWELVE, Rank;
    RanksGrow(j - 1);
    if i < j - 1 {
      RanksGrowFar(i, j - 1);
    }
  }

  lemma TwelveAreUnique()
    ensures UniqueKeys(TWELVE)
  {
    hide TWELVE, Rank;
    forall i: nat, j: nat | i < j < |TWELVE|
      ensures TWELVE[i].key != TWELVE[j].key
    {
      RanksGrowFar(i, j);
    }
  }

  lemma TwelveAreTextFields()
    ensures forall i :: 0 <= i < |TWELVE| ==> IsTextField(TWELVE[i])
  {
    hide IsUnsafeKey, IsUseful;
    OkIsUseful();
    FirstKeysAreSafe();
    LastKeysAreSafe();
  }

  lemma NotOmitted(fields: seq<Field>)
    requires forall i :: 0 <= i < |fields| ==> !IsSkippedKey(fields[i].key)
    ensures !IsOmittedObject(fields)
  {
  }

  /** For every depth there is a value that reaches the bound when entered with 15 texts. */
  lemma {:induction false} BoundIsReached(depth: nat, found: Found)
    requires depth <= MAX_JSON_DEPTH + 1 && |found.texts| == 15
    ensures WellFormed(Nested(MAX_JSON_DEPTH + 1 - depth))
    ensures |Collect(Nested(MAX_JSON_DEPTH + 1 - depth), depth, found).texts| == Bound(depth)
    decreases MAX_JSON_DEPTH + 1 - depth
  {
    hide IsUseful, IsUnsafeKey, IsSkippedKey, IsOmittedObject, WellFormed, TWELVE;
    NestedIsWellFormed(MAX_JSON_DEPTH + 1 - depth);
    if depth <= MAX_JSON_DEPTH {
      var inner := Nested(MAX_JSON_DEPTH - depth);
      var fields := [Field("a", inner)] + TWELVE;
      BoundIsReached(depth + 1, found);
      TwelveAreTextFields();
      OuterKey();
      assert fields[1..] == TWELVE;
      NotOmitted(fields);
      assert Collect(Obj(fields), depth, found) == CollectFields(fields, depth + 1, found);
      assert CollectField(fields[0], depth + 1, found) == Collect(inner, depth + 1, found);
      TextFieldsArePushed(TWELVE, depth + 1, Collect(inner, depth + 1, found));
    }
  }

  lemma OuterKey()
    ensures !IsUnsafeKey("a") && !IsSkippedKey("a") && "a" !in TEXT_KEYS && |TWELVE| == 12
  {
    PlainIsSafe("a", 'g');
  }

  lemma {:induction false} NestedIsWellFormed(levels: nat)
    ensures WellFormed(Nested(levels))
  {
    hide TWELVE;
    if levels > 0 {
      var fields := [Field("a", Nested(levels - 1))] + TWELVE;
      NestedIsWellFormed(levels - 1);
      TwelveAreUnique();
      TextsAreWellFormed();
      assert forall i :: 1 <= i < |fields| ==> fields[i] == TWELVE[i - 1];
      assert UniqueKeys(fields);
    }
  }

  lemma TextsAreWellFormed()
    ensures forall i :: 0 <= i < |TWELVE| ==> WellFormed(TWELVE[i].value) && TWELVE[i].key != "a"
  {
  }
}
