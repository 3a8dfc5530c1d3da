/** Which texts of a message survive the cap that is checked on entry only, and when the cap holds. */
module MessageCap {
  import opened Text
  import opened MessageText

  // ---- which texts a message keeps ----

  /** A text of the reading without a cap, and how many texts came before the value whose entry check admits it:
      the object for a string under a text key, the string itself otherwise. */
  datatype Mark = Mark(text: string, entered: nat)

  function One(text: string, entered: nat): seq<Mark> {
    if IsUseful(text) then [Mark(text, entered)] else []
  }

  /** Everything read from a value when there is no cap; `at` texts come before it. */
  function Read(value: Json, depth: nat, at: nat): seq<Mark>
    decreases value, 1
  {
    if depth > MAX_JSON_DEPTH then []
    else
      match value
      case Str(text) => One(text, at)
      case Arr(items) => ReadItems(if |items| > MAX_ITEMS then items[..MAX_ITEMS] else items, depth + 1, at)
      case Obj(fields) => if IsOmittedObject(fields) then [] else ReadFields(fields, depth + 1, at, at)
      case Scalar => []
  }

  function ReadItems(items: seq<Json>, depth: nat, at: nat): seq<Mark>
    decreases items, 0
  {
    if items == [] then []
    else
      var first := Read(items[0], depth, at);
      first + ReadItems(items[1..], depth, at + |first|)
  }

  function ReadField(f: Field, depth: nat, at: nat, entered: nat): seq<Mark>
    decreases f, 2
  {
    if IsUnsafeKey(f.key) || IsSkippedKey(f.key) then []
    else if f.key in TEXT_KEYS && f.value.Str? then One(f.value.text, entered)
    else Read(f.value, depth, at)
  }

  function ReadFields(fields: seq<Field>, depth: nat, at: nat, entered: nat): seq<Mark>
    decreases fields, 0
  {
    if fields == [] then []
    else
      var first := ReadField(fields[0], depth, at, entered);
      first + ReadFields(fields[1..], depth, at + |first|, entered)
  }

  /** The texts whose value was entered before the cap. */
  function Kept(marks: seq<Mark>): seq<string> {
    if marks == [] then []
    else (if marks[0].entered < MAX_TEXTS then [marks[0].text] else []) + Kept(marks[1..])
  }

  lemma {:induction false} KeptOfConcat(a: seq<Mark>, b: seq<Mark>)
    ensures Kept(a + b) == Kept(a) + Kept(b)
  {
    if a == [] {
      assert a + b == b;
    } else {
      assert (a + b)[1..] == a[1..] + b;
      KeptOfConcat(a[1..], b);
    }
  }

  /** No value is entered later than its texts are read. */
  ghost predicate Timely(marks: seq<Mark>, at: nat) {
    forall i :: 0 <= i < |marks| ==> marks[i].entered <= at + i
  }

  lemma TimelyConcat(a: seq<Mark>, b: seq<Mark>, at: nat)
    requires Timely(a, at) && Timely(b, at + |a|)
    ensures Timely(a + b, at)
  {
  }

  // Below the cap nothing is dropped, and the first texts up to the cap are always kept.
  lemma {:induction false} KeptCount(marks: seq<Mark>, at: nat)
    requires Timely(marks, at)
    ensures |Kept(marks)| <= |marks|
    ensures at + |marks| <= MAX_TEXTS ==> |Kept(marks)| == |marks|
    ensures at < MAX_TEXTS <= at + |marks| ==> at + |Kept(marks)| >= MAX_TEXTS
  {
    if marks != [] {
      assert Timely(marks[1..], at + 1);
      KeptCount(marks[1..], at + 1);
    }
  }

  /** The texts gathered agree with those read until the cap; from then on both are past it. */
  predicate InStep(gathered: nat, at: nat) {
    if at < MAX_TEXTS then gathered == at else gathered >= MAX_TEXTS
  }

  lemma KeptInStep(marks: seq<Mark>, gathered: nat, at: nat)
    requires Timely(marks, at) && InStep(gathered, at)
    ensures InStep(gathered + |Kept(marks)|, at + |marks|)
  {
    KeptCount(marks, at);
  }

  lemma OneIsKept(text: string, entered: nat, found: Found)
    requires entered < MAX_TEXTS
    ensures Push(found, text).texts == found.texts + Kept(One(text, entered))
  {
    hide IsUseful;
    assert One(text, entered) != [] ==> One(text, entered)[1..] == [];
  }

  lemma {:induction false} NothingKept(marks: seq<Mark>)
    requires forall i :: 0 <= i < |marks| ==> marks[i].entered >= MAX_TEXTS
    ensures Kept(marks) == []
  {
    if marks != [] {
      NothingKept(marks[1..]);
    }
  }

  // A reading that starts past the cap has nothing that was entered before it.
  lemma {:induction false} ReadOpens(value: Json, depth: nat, at: nat)
    ensures Timely(Read(value, depth, at), at)
    ensures forall i :: 0 <= i < |Read(value, depth, at)| ==> at <= Read(value, depth, at)[i].entered
    decreases value, 1
  {
    hide IsUseful, IsUnsafeKey, IsSkippedKey, IsOmittedObject;
    if depth <= MAX_JSON_DEPTH {
      match value
      case Str(_) =>
      case Arr(items) => ItemsOpen(if |items| > MAX_ITEMS then items[..MAX_ITEMS] else items, depth + 1, at);
      case Obj(fields) => FieldsOpen(fields, depth + 1, at, at);
      case Scalar =>
    }
  }

  lemma {:induction false} ItemsOpen(items: seq<Json>, depth: nat, at: nat)
    ensures Timely(ReadItems(items, depth, at), at)
    ensures forall i :: 0 <= i < |ReadItems(items, depth, at)| ==> at <= ReadItems(items, depth, at)[i].entered
    decreases items, 0
  {
    if items != [] {
      var first := Read(items[0], depth, at);
      ReadOpens(items[0], depth, at);
      ItemsOpen(items[1..], depth, at + |first|);
      TimelyConcat(first, ReadItems(items[1..], depth, at + |first|), at);
    }
  }

  lemma {:induction false} FieldsOpen(fields: seq<Field>, depth: nat, at: nat, entered: nat)
    requires entered <= at
    ensures Timely(ReadFields(fields, depth, at, entered), at)
    ensures forall i :: 0 <= i < |ReadFields(fields, depth, at, entered)| ==>
              entered <= ReadFields(fields, depth, at, entered)[i].entered
    decreases fields, 0
  {
    hide ReadField;
    if fields != [] {
      var first := ReadField(fields[0], depth, at, entered);
      FieldOpens(fields[0], depth, at, entered);
      FieldsOpen(fields[1..], depth, at + |first|, entered);
      TimelyConcat(first, ReadFields(fields[1..], depth, at + |first|, entered), at);
    }
  }

  lemma {:induction false} FieldOpens(f: Field, depth: nat, at: nat, entered: nat)
    requires entered <= at
    ensures Timely(ReadField(f, depth, at, entered), at)
    ensures forall i :: 0 <= i < |ReadField(f, depth, at, entered)| ==>
              entered <= ReadField(f, depth, at, entered)[i].entered
    decreases f, 2
  {
    hide IsUseful, IsUnsafeKey, IsSkippedKey, TEXT_KEYS;
    ReadOpens(f.value, depth, at);
  }

  /** Collecting keeps exactly the texts of the reading without a cap whose value was entered before the
      sixteenth text, in order. */
  lemma {:induction false} KeepsWhatWasEntered(value: Json, depth: nat, found: Found, at: nat)
    requires InStep(|found.texts|, at)
    ensures Collect(value, depth, found).texts == found.texts + Kept(Read(value, depth, at))
    decreases value, 1
  {
    hide IsUseful, IsUnsafeKey, IsSkippedKey, IsOmittedObject, Kept, Timely;
    ReadOpens(value, depth, at);
    if depth > MAX_JSON_DEPTH || at >= MAX_TEXTS {
      NothingKept(Read(value, depth, at));
    } else {
      NothingKept([]);
      match value
      case Str(text) => OneIsKept(text, at, found);
      case Arr(items) =>
        ItemsKeep(if |items| > MAX_ITEMS then items[..MAX_ITEMS] else items, depth + 1,
                  if |items| > MAX_ITEMS then Omit(found) else found, at);
      case Obj(fields) => FieldsKeep(fields, depth + 1, found, at, at);
      case Scalar =>
    }
  }

  lemma {:induction false} ItemsKeep(items: seq<Json>, depth: nat, found: Found, at: nat)
    requires InStep(|found.texts|, at)
    ensures CollectItems(items, depth, found).texts == found.texts + Kept(ReadItems(items, depth, at))
    decreases items, 0
  {
    hide Kept, Timely, InStep;
    if items == [] {
      NothingKept([]);
    } else {
      var first, next := Read(items[0], depth, at), Collect(items[0], depth, found);
      KeepsWhatWasEntered(items[0], depth, found, at);
      ReadOpens(items[0], depth, at);
      KeptInStep(first, |found.texts|, at);
      ItemsKeep(items[1..], depth, next, at + |first|);
      KeptOfConcat(first, ReadItems(items[1..], depth, at + |first|));
    }
  }

  // The fields of an object that was entered before the cap.
  lemma {:induction false} FieldsKeep(fields: seq<Field>, depth: nat, found: Found, at: nat, entered: nat)
    requires InStep(|found.texts|, at) && entered < MAX_TEXTS && entered <= at
    ensures CollectFields(fields, depth, found).texts == found.texts + Kept(ReadFields(fields, depth, at, entered))
    decreases fields, 0
  {
    hide CollectField, ReadField, Kept, Timely, InStep;
    if fields == [] {
      NothingKept([]);
    } else {
      var f := fields[0];
      var first, next := ReadField(f, depth, at, entered), CollectField(f, depth, found);
      FieldKeeps(f, depth, found, at, entered);
      FieldOpens(f, depth, at, entered);
      KeptInStep(first, |found.texts|, at);
      FieldsKeep(fields[1..], depth, next, at + |first|, entered);
      KeptOfConcat(first, ReadFields(fields[1..], depth, at + |first|, entered));
    }
  }

  lemma {:induction false} FieldKeeps(f: Field, depth: nat, found: Found, at: nat, entered: nat)
    requires InStep(|found.texts|, at) && entered < MAX_TEXTS && entered <= at
    ensures CollectField(f, depth, found).texts == found.texts + Kept(ReadField(f, depth, at, entered))
    decreases f, 2
  {
    hide IsUseful, IsUnsafeKey, IsSkippedKey, Kept, InStep, TEXT_KEYS;
    NothingKept([]);
    if f.value.Str? {
      OneIsKept(f.value.text, entered, found);
    }
    KeepsWhatWasEntered(f.value, depth, found, at);
  }

  /** The texts of a whole message, as every caller starts it. */
  function MessageTexts(value: Json, omitted: nat): seq<string> {
    Collect(value, 0, Found([], omitted)).texts
  }

  lemma {:induction false} KeptAfter(marks: seq<Mark>, n: nat)
    requires n <= |marks| && forall i :: 0 <= i < n ==> marks[i].entered < MAX_TEXTS
    ensures |Kept(marks)| == n + |Kept(marks[n..])|
  {
    if n == 0 {
      assert marks[0..] == marks;
    } else {
      assert marks[1..][n - 1..] == marks[n..];
      KeptAfter(marks[1..], n - 1);
    }
  }

  lemma {:induction false} NoneKeptIff(marks: seq<Mark>)
    ensures Kept(marks) == [] <==> forall i :: 0 <= i < |marks| ==> marks[i].entered >= MAX_TEXTS
  {
    if marks != [] {
      NoneKeptIff(marks[1..]);
      assert forall i :: 1 <= i < |marks| ==> marks[i] == marks[1..][i - 1];
    }
  }

  /** A message keeps to 16 texts exactly when no text read after the sixteenth belongs to an object entered
      before it: when no object entered with fewer than 16 texts read holds, under a text key, a later one. */
  lemma CapHoldsIff(value: Json, omitted: nat)
    ensures MessageTexts(value, omitted) == Kept(Read(value, 0, 0))
    ensures |MessageTexts(value, omitted)| <= MAX_TEXTS <==>
              forall i :: MAX_TEXTS <= i < |Read(value, 0, 0)| ==> Read(value, 0, 0)[i].entered >= MAX_TEXTS
  {
    hide Read, Kept;
    var marks := Read(value, 0, 0);
    KeepsWhatWasEntered(value, 0, Found([], omitted), 0);
    ReadOpens(value, 0, 0);
    var n := if |marks| < MAX_TEXTS then |marks| else MAX_TEXTS;
    KeptAfter(marks, n);
    NoneKeptIff(marks[n..]);
    assert forall i :: n <= i < |marks| ==> marks[n..][i - n] == marks[i];
  }

  // ---- what is left out ----

  /** The things left out of the reading without a cap: for each, the texts read before the value was entered whose
      entry check decides about it. Those are arrays with too many items, objects of a kind that is left out, and
      fields with an unsafe key. */
  function Omissions(value: Json, depth: nat, at: nat): seq<nat>
    decreases value, 1
  {
    if depth > MAX_JSON_DEPTH then []
    else
      match value
      case Arr(items) =>
        if |items| > MAX_ITEMS then [at] + OmissionsOfItems(items[..MAX_ITEMS], depth + 1, at)
        else OmissionsOfItems(items, depth + 1, at)
      case Obj(fields) => if IsOmittedObject(fields) then [at] else OmissionsOfFields(fields, depth + 1, at, at)
      case _ => []
  }

  function OmissionsOfItems(items: seq<Json>, depth: nat, at: nat): seq<nat>
    decreases items, 0
  {
    if items == [] then []
    else Omissions(items[0], depth, at) + OmissionsOfItems(items[1..], depth, at + |Read(items[0], depth, at)|)
  }

  function OmissionsOfField(f: Field, depth: nat, at: nat, entered: nat): seq<nat>
    decreases f, 2
  {
    if IsUnsafeKey(f.key) then [entered]
    else if IsSkippedKey(f.key) || (f.key in TEXT_KEYS && f.value.Str?) then []
    else Omissions(f.value, depth, at)
  }

  function OmissionsOfFields(fields: seq<Field>, depth: nat, at: nat, entered: nat): seq<nat>
    decreases fields, 0
  {
    if fields == [] then []
    else
      OmissionsOfField(fields[0], depth, at, entered)
      + OmissionsOfFields(fields[1..], depth, at + |ReadField(fields[0], depth, at, entered)|, entered)
  }

  /** How many are decided before the cap. */
  function Early(omissions: seq<nat>): nat {
    if omissions == [] then 0 else (if omissions[0] < MAX_TEXTS then 1 else 0) + Early(omissions[1..])
  }

  lemma {:induction false} EarlyOfConcat(a: seq<nat>, b: seq<nat>)
    ensures Early(a + b) == Early(a) + Early(b)
  {
    if a == [] {
      assert a + b == b;
    } else {
      assert (a + b)[1..] == a[1..] + b;
      EarlyOfConcat(a[1..], b);
    }
  }

  lemma {:induction false} NoneEarly(omissions: seq<nat>)
    requires forall i :: 0 <= i < |omissions| ==> omissions[i] >= MAX_TEXTS
    ensures Early(omissions) == 0
  {
    if omissions != [] {
      NoneEarly(omissions[1..]);
    }
  }

  lemma OneEarly(entered: nat)
    ensures Early([entered]) == (if entered < MAX_TEXTS then 1 else 0) && Early([]) == 0
  {
    assert [entered][1..] == [];
  }

  lemma {:induction false} OmittedLate(value: Json, depth: nat, at: nat)
    ensures forall i :: 0 <= i < |Omissions(value, depth, at)| ==> at <= Omissions(value, depth, at)[i]
    decreases value, 1
  {
    hide IsOmittedObject, Read, ReadItems, ReadFields;
    if depth <= MAX_JSON_DEPTH {
      match value
      case Arr(items) => ItemsOmittedLate(if |items| > MAX_ITEMS then items[..MAX_ITEMS] else items, depth + 1, at);
      case Obj(fields) => FieldsOmittedLate(fields, depth + 1, at, at);
      case _ =>
    }
  }

  lemma {:induction false} ItemsOmittedLate(items: seq<Json>, depth: nat, at: nat)
    ensures forall i :: 0 <= i < |OmissionsOfItems(items, depth, at)| ==> at <= OmissionsOfItems(items, depth, at)[i]
    decreases items, 0
  {
    hide Read, Omissions;
    if items != [] {
      OmittedLate(items[0], depth, at);
      ItemsOmittedLate(items[1..], depth, at + |Read(items[0], depth, at)|);
    }
  }

  lemma {:induction false} FieldsOmittedLate(fields: seq<Field>, depth: nat, at: nat, entered: nat)
    requires entered <= at
    ensures forall i :: 0 <= i < |OmissionsOfFields(fields, depth, at, entered)| ==>
              entered <= OmissionsOfFields(fields, depth, at, entered)[i]
    decreases fields, 0
  {
    hide ReadField, OmissionsOfField;
    if fields != [] {
      FieldOmittedLate(fields[0], depth, at, entered);
      FieldsOmittedLate(fields[1..], depth, at + |ReadField(fields[0], depth, at, entered)|, entered);
    }
  }

  lemma {:induction false} FieldOmittedLate(f: Field, depth: nat, at: nat, entered: nat)
    requires entered <= at
    ensures forall i :: 0 <= i < |OmissionsOfField(f, depth, at, entered)| ==>
              entered <= OmissionsOfField(f, depth, at, entered)[i]
    decreases f, 2
  {
    hide IsUnsafeKey, IsSkippedKey, TEXT_KEYS, Omissions;
    OmittedLate(f.value, depth, at);
  }

  /** Collecting counts exactly those of them that are decided before the sixteenth text. */
  lemma {:induction false} CountsWhatWasOmitted(value: Json, depth: nat, found: Found, at: nat)
    requires InStep(|found.texts|, at)
    ensures Collect(value, depth, found).omitted == found.omitted + Early(Omissions(value, depth, at))
    decreases value, 1
  {
    hide IsUseful, IsOmittedObject, Early;
    OmittedLate(value, depth, at);
    OneEarly(at);
    if depth > MAX_JSON_DEPTH || at >= MAX_TEXTS {
      NoneEarly(Omissions(value, depth, at));
    } else {
      match value
      case Arr(items) =>
        if |items| > MAX_ITEMS {
          ItemsCounted(items[..MAX_ITEMS], depth + 1, Omit(found), at);
          EarlyOfConcat([at], OmissionsOfItems(items[..MAX_ITEMS], depth + 1, at));
        } else {
          ItemsCounted(items, depth + 1, found, at);
        }
      case Obj(fields) => FieldsCounted(fields, depth + 1, found, at, at);
      case _ =>
    }
  }

  lemma {:induction false} ItemsCounted(items: seq<Json>, depth: nat, found: Found, at: nat)
    requires InStep(|found.texts|, at)
    ensures CollectItems(items, depth, found).omitted == found.omitted + Early(OmissionsOfItems(items, depth, at))
    decreases items, 0
  {
    hide Early, InStep, Collect, Read, Omissions, Kept, Timely;
    OneEarly(0);
    if items != [] {
      var first, next := Read(items[0], depth, at), Collect(items[0], depth, found);
      CountsWhatWasOmitted(items[0], depth, found, at);
      KeepsWhatWasEntered(items[0], depth, found, at);
      ReadOpens(items[0], depth, at);
      KeptInStep(first, |found.texts|, at);
      ItemsCounted(items[1..], depth, next, at + |first|);
      EarlyOfConcat(Omissions(items[0], depth, at), OmissionsOfItems(items[1..], depth, at + |first|));
    }
  }

  lemma {:induction false} FieldsCounted(fields: seq<Field>, depth: nat, found: Found, at: nat, entered: nat)
    requires InStep(|found.texts|, at) && entered < MAX_TEXTS && entered <= at
    ensures CollectFields(fields, depth, found).omitted ==
            found.omitted + Early(OmissionsOfFields(fields, depth, at, entered))
    decreases fields, 0
  {
    hide Early, InStep, CollectField, ReadField, OmissionsOfField, Kept, Timely;
    OneEarly(0);
    if fields != [] {
      var f := fields[0];
      var first, next := ReadField(f, depth, at, entered), CollectField(f, depth, found);
      FieldCounted(f, depth, found, at, entered);
      FieldKeeps(f, depth, found, at, entered);
      FieldOpens(f, depth, at, entered);
      KeptInStep(first, |found.texts|, at);
      FieldsCounted(fields[1..], depth, next, at + |first|, entered);
      EarlyOfConcat(OmissionsOfField(f, depth, at, entered),
                    OmissionsOfFields(fields[1..], depth, at + |first|, entered));
    }
  }

  lemma {:induction false} FieldCounted(f: Field, depth: nat, found: Found, at: nat, entered: nat)
    requires InStep(|found.texts|, at) && entered < MAX_TEXTS && entered <= at
    ensures CollectField(f, depth, found).omitted == found.omitted + Early(OmissionsOfField(f, depth, at, entered))
    decreases f, 2
  {
    hide IsUseful, IsUnsafeKey, IsSkippedKey, Early, InStep, TEXT_KEYS, Collect, Omissions;
    OneEarly(entered);
    CountsWhatWasOmitted(f.value, depth, found, at);
  }

  /** Past a depth of 10 or with 16 texts nothing is read; of a longer array only the first 32 items are, and the rest
      counts as one omission. */
  lemma LimitsAre(items: seq<Json>, value: Json, depth: nat, found: Found)
    ensures depth > 10 || |found.texts| >= 16 ==> Collect(value, depth, found) == found
    ensures depth <= 10 && |found.texts| < 16 && |items| > 32 ==>
              Collect(Arr(items), depth, found) ==
              Collect(Arr(items[..32]), depth, found.(omitted := found.omitted + 1))
  {
    hide CollectItems;
  }

  // ---- what is let through ----

  /** Whether two strings are the same but for the case of ASCII letters. */
  predicate SameButCase(a: string, b: string) {
    && |a| == |b|
    && forall i :: 0 <= i < |a| ==> a[i] == b[i] || (IsLetter(a[i]) && IsLetter(b[i]) && Lower(a[i]) == Lower(b[i]))
  }

  predicate IsLetter(c: char) {
    'a' <= c <= 'z' || 'A' <= c <= 'Z'
  }

  function Lower(c: char): char
    requires IsLetter(c)
  {
    if c <= 'Z' then c + ' ' else c
  }

  lemma LowerAsciiIs(s: string)
    ensures LowerAscii(s) == "null" <==> SameButCase(s, "null")
  {
    var l := LowerAscii(s);
    if SameButCase(s, "null") {
      assert l == "null" by {
        assert forall i :: 0 <= i < 4 ==> l[i] == "null"[i];
      }
    }
    if l == "null" {
      assert |s| == 4 && forall i :: 0 <= i < 4 ==> l[i] == "null"[i];
    }
  }

  /** A text is kept when its trimmed form has at least two bytes, does not look like JSON and is not "null" in any
      case, or says that something was omitted. */
  lemma UsefulIff(text: string)
    ensures var t := Trim(text);
            IsUseful(text) <==>
              || StartsWith(t, "[omitted")
              || (Bytes(t) >= 2 && t[..1] != "{" && t[..1] != "[" && !SameButCase(t, "null"))
  {
    var t := Trim(text);
    hide Trim, Bytes, LowerAscii, SameButCase;
    LowerAsciiIs(t);
    EmptyBytes();
    assert t != "" ==> (StartsWith(t, "{") <==> t[..1] == "{") && (StartsWith(t, "[") <==> t[..1] == "[");
  }

  lemma EmptyBytes()
    ensures Bytes("") == 0
  {
  }

  /** No text in a message is useless. */
  lemma {:induction false} KeptAreUseful(value: Json, depth: nat, at: nat)
    ensures forall i :: 0 <= i < |Read(value, depth, at)| ==> IsUseful(Read(value, depth, at)[i].text)
    decreases value, 1
  {
    hide IsUseful, IsOmittedObject;
    if depth <= MAX_JSON_DEPTH {
      match value
      case Arr(items) => ItemsAreUseful(if |items| > MAX_ITEMS then items[..MAX_ITEMS] else items, depth + 1, at);
      case Obj(fields) => FieldsAreUseful(fields, depth + 1, at, at);
      case _ =>
    }
  }

  lemma {:induction false} ItemsAreUseful(items: seq<Json>, depth: nat, at: nat)
    ensures forall i :: 0 <= i < |ReadItems(items, depth, at)| ==> IsUseful(ReadItems(items, depth, at)[i].text)
    decreases items, 0
  {
    hide IsUseful, Read;
    if items != [] {
      KeptAreUseful(items[0], depth, at);
      ItemsAreUseful(items[1..], depth, at + |Read(items[0], depth, at)|);
    }
  }

  lemma {:induction false} FieldsAreUseful(fields: seq<Field>, depth: nat, at: nat, entered: nat)
    ensures forall i :: 0 <= i < |ReadFields(fields, depth, at, entered)| ==>
              IsUseful(ReadFields(fields, depth, at, entered)[i].text)
    decreases fields, 0
  {
    hide IsUseful, ReadField;
    if fields != [] {
      FieldIsUseful(fields[0], depth, at, entered);
      FieldsAreUseful(fields[1..], depth, at + |ReadField(fields[0], depth, at, entered)|, entered);
    }
  }

  lemma {:induction false} FieldIsUseful(f: Field, depth: nat, at: nat, entered: nat)
    ensures forall i :: 0 <= i < |ReadField(f, depth, at, entered)| ==>
              IsUseful(ReadField(f, depth, at, entered)[i].text)
    decreases f, 2
  {
    hide IsUseful, IsUnsafeKey, IsSkippedKey, TEXT_KEYS, Read;
    KeptAreUseful(f.value, depth, at);
  }

  /** Payload keys, in any case: those with "image", "screenshot" or "base64" in them, and three whole names. */
  lemma UnsafeKeyIff(key: string)
    ensures IsUnsafeKey(key) <==>
              || (exists i: nat :: i <= |key| && "image" <= LowerAscii(key)[i..])
              || (exists i: nat :: i <= |key| && "screenshot" <= LowerAscii(key)[i..])
              || (exists i: nat :: i <= |key| && "base64" <= LowerAscii(key)[i..])
              || LowerAscii(key) in {"dataurl", "data_url", "blob"}
  {
    hide Contains;
    ContainsIff(LowerAscii(key), "image");
    ContainsIff(LowerAscii(key), "screenshot");
    ContainsIff(LowerAscii(key), "base64");
  }

  /** An object is left out when its type is thinking, reasoning or attachment. */
  lemma OmittedObjectIff(fields: seq<Field>, i: nat)
    requires UniqueKeys(fields) && i < |fields| && fields[i].key == "type"
    ensures IsOmittedObject(fields) <==>
              fields[i].value in {Str("thinking"), Str("reasoning"), Str("attachment")}
  {
  }

  // ---- messages without strings under text keys ----

  /** No object of the value has a string under a text key. */
  predicate NoTextFields(value: Json) {
    match value
    case Arr(items) => forall v :: v in items ==> NoTextFields(v)
    case Obj(fields) => forall f :: f in fields ==> !(f.key in TEXT_KEYS && f.value.Str?) && NoTextFields(f.value)
    case _ => true
  }

  /** Such a value leaves at most 16 texts, wherever it is entered, unless there were more before. */
  lemma {:induction false} CapHoldsWithoutTextFields(value: Json, depth: nat, found: Found)
    requires NoTextFields(value)
    ensures |Collect(value, depth, found).texts| <= Max(|found.texts|, MAX_TEXTS)
    decreases value, 1
  {
    hide IsUseful, IsUnsafeKey, IsSkippedKey, IsOmittedObject, TEXT_KEYS;
    if depth <= MAX_JSON_DEPTH && |found.texts| < MAX_TEXTS {
      match value
      case Str(_) =>
      case Arr(items) =>
        ItemsCapped(if |items| > MAX_ITEMS then items[..MAX_ITEMS] else items, depth + 1,
                    if |items| > MAX_ITEMS then Omit(found) else found);
      case Obj(fields) => FieldsCapped(fields, depth + 1, found);
      case Scalar =>
    }
  }

  lemma {:induction false} ItemsCapped(items: seq<Json>, depth: nat, found: Found)
    requires forall v :: v in items ==> NoTextFields(v)
    ensures |CollectItems(items, depth, found).texts| <= Max(|found.texts|, MAX_TEXTS)
    decreases items, 0
  {
    hide NoTextFields;
    if items != [] {
      CapHoldsWithoutTextFields(items[0], depth, found);
      ItemsCapped(items[1..], depth, Collect(items[0], depth, found));
    }
  }

  lemma {:induction false} FieldsCapped(fields: seq<Field>, depth: nat, found: Found)
    requires forall f :: f in fields ==> !(f.key in TEXT_KEYS && f.value.Str?) && NoTextFields(f.value)
    ensures |CollectFields(fields, depth, found).texts| <= Max(|found.texts|, MAX_TEXTS)
    decreases fields, 0
  {
    hide IsUseful, IsUnsafeKey, IsSkippedKey, TEXT_KEYS, NoTextFields;
    if fields != [] {
      CapHoldsWithoutTextFields(fields[0].value, depth, found);
      FieldsCapped(fields[1..], depth, CollectField(fields[0], depth, found));
    }
  }

  // ---- a message with the most texts ----

  function Oks(n: nat): (items: seq<Json>)
    ensures |items| == n && forall i :: 0 <= i < n ==> items[i] == Str("ok")
  {
    if n == 0 then [] else Oks(n - 1) + [Str("ok")]
  }

  lemma {:induction false} StringsAreGathered(items: seq<Json>, depth: nat, found: Found)
    requires forall i :: 0 <= i < |items| ==> items[i] == Str("ok")
    requires depth <= MAX_JSON_DEPTH && |found.texts| + |items| < MAX_TEXTS
    ensures |CollectItems(items, depth, found).texts| == |found.texts| + |items|
    decreases |items|
  {
    hide IsUseful;
    OkIsUseful();
    if items != [] {
      StringsAreGathered(items[1..], depth, Collect(items[0], depth, found));
    }
  }

  /** Fifteen texts ahead of objects nested as deep as the reader goes. */
  function Longest(): Json {
    Obj([Field("_", Arr(Oks(15)))] + ([Field("a", Nested(MAX_JSON_DEPTH))] + TWELVE))
  }

  /** Entered as callers do, at depth 0 with no texts, a message leaves at most 147 texts, and one leaves as many. */
  lemma MessagesAreBounded(value: Json, omitted: nat)
    requires WellFormed(value)
    ensures |MessageTexts(value, omitted)| <= 147
    ensures WellFormed(Longest()) && |MessageTexts(Longest(), omitted)| == 147
  {
    hide IsUseful, IsUnsafeKey, IsSkippedKey, IsOmittedObject, TWELVE, Oks, WellFormed, Nested, Collect;
    TextsAreBounded(value, 0, Found([], omitted));
    LongestIsWellFormed();
    LongestLeaves(Found([], omitted));
  }

  lemma LongestIsWellFormed()
    ensures WellFormed(Longest())
  {
    hide TWELVE, TEXT_KEYS, IsUnsafeKey, IsSkippedKey, IsUseful;
    var inner := [Field("a", Nested(MAX_JSON_DEPTH))] + TWELVE;
    NestedIsWellFormed(MAX_JSON_DEPTH);
    TwelveAreUnique();
    TextsAreWellFormed();
    OuterKey();
    UnderscoreIsNoTextKey();
    TwelveAreTextFields();
    UniqueWithFirst(Field("a", Nested(MAX_JSON_DEPTH)), TWELVE);
    UniqueWithFirst(Field("_", Arr(Oks(15))), inner);
  }

  lemma UniqueWithFirst(f: Field, fields: seq<Field>)
    requires UniqueKeys(fields) && forall i :: 0 <= i < |fields| ==> fields[i].key != f.key
    ensures UniqueKeys([f] + fields)
  {
    var all := [f] + fields;
    assert forall i :: 1 <= i < |all| ==> all[i] == fields[i - 1];
  }

  lemma LongestLeaves(found: Found)
    requires found.texts == []
    ensures |Collect(Longest(), 0, found).texts| == 147
  {
    hide IsUseful, IsUnsafeKey, IsSkippedKey, IsOmittedObject, TWELVE, Nested, CollectItems;
    var inner := [Field("a", Nested(MAX_JSON_DEPTH))] + TWELVE;
    var fields := [Field("_", Arr(Oks(15)))] + inner;
    OuterKey();
    PlainIsSafe("_", 'g');
    UnderscoreIsNoTextKey();
    TwelveAreTextFields();
    NotOmitted(fields);
    assert fields[1..] == inner && inner[1..] == TWELVE;
    var entered := CollectItems(Oks(15), 2, found);
    StringsAreGathered(Oks(15), 2, found);
    assert CollectField(fields[0], 1, found) == Collect(Arr(Oks(15)), 1, found) == entered;
    var nested := Collect(Nested(MAX_JSON_DEPTH), 1, entered);
    BoundIsReached(1, entered);
    assert CollectField(inner[0], 1, entered) == nested;
    TextFieldsArePushed(TWELVE, 1, nested);
    assert Collect(Obj(fields), 0, found) == CollectFields(fields, 1, found);
    assert CollectFields(fields, 1, found) == CollectFields(inner, 1, entered);
    assert CollectFields(inner, 1, entered) == CollectFields(TWELVE, 1, nested);
  }

  lemma UnderscoreIsNoTextKey()
    ensures !IsSkippedKey("_") && "_" !in TEXT_KEYS
  {
  }
}
