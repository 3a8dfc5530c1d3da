/** The unified-diff line numberer against what a diff of an edit script says. */
module DiffLines {
  import opened Wrappers
  import opened Text

  // ---- the parser ----

  function DropLeading(s: string, c: char): string {
    if s != "" && s[0] == c then DropLeading(s[1..], c) else s
  }

  /** The number before the first comma. */
  function ParseHunkStart(value: string): Option<nat> {
    ParseUsize(value[..IndexOf(value, ',')])
  }

  function ParseHunkHeader(line: string): Option<(nat, nat)> {
    if !StartsWith(line, "@@ ") then None
    else
      var words := Words(line);
      if |words| < 3 then None
      else
        var o, n := ParseHunkStart(DropLeading(words[1], '-')), ParseHunkStart(DropLeading(words[2], '+'));
        if o == None || n == None then None else Some((o.value, n.value))
  }

  predicate IsFileHeader(line: string) {
    StartsWith(line, "+++") || StartsWith(line, "---")
  }

  /** Deleted and added line numbers from `lines` on, with the counters where they stand. */
  function ParseFrom(lines: seq<string>, o: nat, n: nat): (seq<nat>, seq<nat>) {
    if lines == [] then ([], [])
    else
      var line, rest := lines[0], lines[1..];
      var header := ParseHunkHeader(line);
      if header.Some? then ParseFrom(rest, header.value.0, header.value.1)
      else if IsFileHeader(line) then ParseFrom(rest, o, n)
      else if StartsWith(line, "+") then
        var (deleted, added) := ParseFrom(rest, o, n + 1);
        (deleted, [n] + added)
      else if StartsWith(line, "-") then
        var (deleted, added) := ParseFrom(rest, o + 1, n);
        ([o] + deleted, added)
      else if StartsWith(line, " ") || line == "" then ParseFrom(rest, o + 1, n + 1)
      else ParseFrom(rest, o, n)
  }

  method ParseDiffLineNumbers(diff: string) returns (deleted: seq<nat>, added: seq<nat>)
    ensures (deleted, added) == ParseFrom(Lines(diff), 0, 0)
  {
    deleted, added := [], [];
    var oldLine, newLine := 0, 0;
    var lines := Lines(diff);
    ghost var all := ParseFrom(lines, 0, 0);
    assert lines[0..] == lines && [] + all.0 == all.0 && [] + all.1 == all.1;
    for i := 0 to |lines|
      invariant var rest := ParseFrom(lines[i..], oldLine, newLine);
                all == (deleted + rest.0, added + rest.1)
    {
      ghost var rest := ParseFrom(lines[i..], oldLine, newLine);
      var line := lines[i];
      assert lines[i..][1..] == lines[i + 1..];
      var header := ParseHunkHeader(line);
      if header.Some? {
        oldLine, newLine := header.value.0, header.value.1;
      } else if IsFileHeader(line) {
      } else if StartsWith(line, "+") {
        assert added + rest.1 == added + [newLine] + rest.1[1..];
        added := added + [newLine];
        newLine := newLine + 1;
      } else if StartsWith(line, "-") {
        assert deleted + rest.0 == deleted + [oldLine] + rest.0[1..];
        deleted := deleted + [oldLine];
        oldLine := oldLine + 1;
      } else if StartsWith(line, " ") || line == "" {
        oldLine := oldLine + 1;
        newLine := newLine + 1;
      }
    }
    assert ParseFrom(lines[|lines|..], oldLine, newLine) == ([], []);
    assert deleted + [] == deleted && added + [] == added;
  }

  // ---- edit scripts ----

  /** A line of one or both files; `bare` when the file ends there without a newline. */
  datatype Edit = Keep(text: string, bare: bool) | Delete(text: string, bare: bool) | Insert(text: string, bare: bool)

  function Old(edits: seq<Edit>): seq<string> {
    if edits == [] then [] else if edits[0].Insert? then Old(edits[1..]) else [edits[0].text] + Old(edits[1..])
  }

  function New(edits: seq<Edit>): seq<string> {
    if edits == [] then [] else if edits[0].Delete? then New(edits[1..]) else [edits[0].text] + New(edits[1..])
  }

  function Kept(edits: seq<Edit>): seq<string> {
    if edits == [] then [] else if edits[0].Keep? then [edits[0].text] + Kept(edits[1..]) else Kept(edits[1..])
  }

  /** The numbers of the deleted lines in the old file, whose next line has number `o`. */
  function Deleted(edits: seq<Edit>, o: nat): seq<nat> {
    if edits == [] then []
    else
      match edits[0]
      case Keep(_, _) => Deleted(edits[1..], o + 1)
      case Delete(_, _) => [o] + Deleted(edits[1..], o + 1)
      case Insert(_, _) => Deleted(edits[1..], o)
  }

  function Inserted(edits: seq<Edit>, n: nat): seq<nat> {
    if edits == [] then []
    else
      match edits[0]
      case Keep(_, _) => Inserted(edits[1..], n + 1)
      case Delete(_, _) => Inserted(edits[1..], n)
      case Insert(_, _) => [n] + Inserted(edits[1..], n + 1)
  }

  /** The lines left when those with the given numbers are dropped. */
  function Drop(lines: seq<string>, first: nat, numbers: seq<nat>): seq<string> {
    if lines == [] then []
    else if first in numbers then Drop(lines[1..], first + 1, numbers)
    else [lines[0]] + Drop(lines[1..], first + 1, numbers)
  }

  ghost predicate IncreasingFrom(numbers: seq<nat>, low: nat) {
    && (forall i :: 0 <= i < |numbers| ==> low <= numbers[i])
    && (forall i, j :: 0 <= i < j < |numbers| ==> numbers[i] < numbers[j])
  }

  lemma {:induction false} NumbersIncrease(edits: seq<Edit>, o: nat, n: nat)
    ensures IncreasingFrom(Deleted(edits, o), o) && IncreasingFrom(Inserted(edits, n), n)
  {
    if edits != [] {
      NumbersIncrease(edits[1..], if edits[0].Insert? then o else o + 1,
                      if edits[0].Delete? then n else n + 1);
    }
  }

  lemma {:induction false} DropIgnoresSmaller(lines: seq<string>, first: nat, small: nat, numbers: seq<nat>)
    requires small < first
    ensures Drop(lines, first, [small] + numbers) == Drop(lines, first, numbers)
  {
    if lines != [] {
      DropIgnoresSmaller(lines[1..], first + 1, small, numbers);
    }
  }

  /** Dropping the deleted lines from the old file leaves the kept lines. */
  lemma {:induction false} DroppingDeletedLeavesKept(edits: seq<Edit>, o: nat)
    ensures Drop(Old(edits), o, Deleted(edits, o)) == Kept(edits)
  {
    if edits != [] {
      var rest := edits[1..];
      if edits[0].Insert? {
        DroppingDeletedLeavesKept(rest, o);
      } else {
        DroppingDeletedLeavesKept(rest, o + 1);
        NumbersIncrease(rest, o + 1, 0);
        assert Old(edits)[1..] == Old(rest);
        DropIgnoresSmaller(Old(rest), o + 1, o, Deleted(rest, o + 1));
      }
    }
  }

  /** Dropping the added lines from the new file leaves the same lines. */
  lemma {:induction false} DroppingInsertedLeavesKept(edits: seq<Edit>, n: nat)
    ensures Drop(New(edits), n, Inserted(edits, n)) == Kept(edits)
  {
    if edits != [] {
      var rest := edits[1..];
      if edits[0].Delete? {
        DroppingInsertedLeavesKept(rest, n);
      } else {
        DroppingInsertedLeavesKept(rest, n + 1);
        NumbersIncrease(rest, 0, n + 1);
        assert New(edits)[1..] == New(rest);
        DropIgnoresSmaller(New(rest), n + 1, n, Inserted(rest, n + 1));
      }
    }
  }

  // ---- rendering as hunks ----

  /** A stretch of unchanged lines that is not shown, or a hunk with its section heading. */
  datatype Segment = Gap(lines: seq<string>) | Hunk(edits: seq<Edit>, heading: string)

  function Edits(s: Segment): seq<Edit> {
    match s
    case Gap(lines) => seq(|lines|, i requires 0 <= i < |lines| => Keep(lines[i], false))
    case Hunk(edits, _) => edits
  }

  function Script(doc: seq<Segment>): seq<Edit> {
    if doc == [] then [] else Edits(doc[0]) + Script(doc[1..])
  }

  /** A hunk range: the start, and the length unless it is 1; an empty range starts a line early. */
  function Range(next: nat, count: nat): string
    requires next > 0
  {
    Decimal(if count == 0 then next - 1 else next) + if count == 1 then "" else "," + Decimal(count)
  }

  function Header(hunk: Segment, o: nat, n: nat): string
    requires hunk.Hunk? && o > 0 && n > 0
  {
    "@@ -" + Range(o, |Old(hunk.edits)|) + " +" + Range(n, |New(hunk.edits)|) + " @@" + hunk.heading
  }

  function Line(e: Edit): string {
    match e
    case Keep(text, _) => " " + text
    case Delete(text, _) => "-" + text
    case Insert(text, _) => "+" + text
  }

  const NO_NEWLINE := "\\ No newline at end of file"

  function Note(e: Edit): seq<string> {
    if e.bare then [NO_NEWLINE] else []
  }

  function Body(edits: seq<Edit>): seq<string> {
    if edits == [] then [] else [Line(edits[0])] + (Note(edits[0]) + Body(edits[1..]))
  }

  /** The lines of the diff of `doc`, whose first lines have the numbers `o` and `n`. */
  function Render(doc: seq<Segment>, o: nat, n: nat): seq<string>
    requires o > 0 && n > 0
  {
    if doc == [] then []
    else
      var edits := Edits(doc[0]);
      var rest := Render(doc[1..], o + |Old(edits)|, n + |New(edits)|);
      if doc[0].Gap? then rest else [Header(doc[0], o, n)] + (Body(edits) + rest)
  }

  // ---- reading a header back ----

  // A range is a decimal number, then possibly a comma and another.
  lemma RangeShape(next: nat, count: nat)
    requires next > 0
    ensures var digits := Decimal(if count == 0 then next - 1 else next);
            var range := Range(next, count);
            && digits != "" && IsDigit(range[0])
            && IndexOf(range, ',') == |digits| && range[..|digits|] == digits
            && forall i :: 0 <= i < |range| ==> IsDigit(range[i]) || range[i] == ','
  {
    hide Decimal, IndexOf;
    var start := if count == 0 then next - 1 else next;
    DecimalIsDigits(start);
    DecimalIsDigits(count);
    var digits := Decimal(start);
    IndexOfFirst(digits, ',', Decimal(count));
    if count != 1 {
      assert Range(next, count) == digits + [','] + Decimal(count);
    } else {
      assert Range(next, count) == digits;
    }
  }

  lemma RangeIsRead(next: nat, count: nat, sign: char)
    requires 0 < next < USIZE_LIMIT && (sign == '-' || sign == '+')
    ensures var range := Range(next, count);
            && IsWord([sign] + range)
            && DropLeading([sign] + range, sign) == range
            && ParseHunkStart(range) == Some(if count == 0 then next - 1 else next)
  {
    hide Range, Decimal, IndexOf, ParseUsize;
    var range := Range(next, count);
    RangeShape(next, count);
    DecimalRoundTrip(if count == 0 then next - 1 else next);
    assert ([sign] + range)[1..] == range;
  }

  /** The parser reads the two starts of a rendered hunk header, whatever heading follows. */
  lemma HeaderIsRead(hunk: Segment, o: nat, n: nat)
    requires hunk.Hunk? && 0 < o < USIZE_LIMIT && 0 < n < USIZE_LIMIT
    ensures ParseHunkHeader(Header(hunk, o, n)) ==
            Some((if |Old(hunk.edits)| == 0 then o - 1 else o, if |New(hunk.edits)| == 0 then n - 1 else n))
  {
    hide Range, Words, DropLeading, ParseHunkStart, IsWord;
    var first, second := Range(o, |Old(hunk.edits)|), Range(n, |New(hunk.edits)|);
    RangeIsRead(o, |Old(hunk.edits)|, '-');
    RangeIsRead(n, |New(hunk.edits)|, '+');
    var tail := " @@" + hunk.heading;
    var line := Header(hunk, o, n);
    HeaderWords(first, second, tail);
    assert line == HeaderLine(first, second, tail);
    assert line[..3] == "@@ ";
  }

  function HeaderLine(first: string, second: string, tail: string): string {
    "@@" + (" " + ((['-'] + first) + (" " + ((['+'] + second) + tail))))
  }

  lemma HeaderWords(first: string, second: string, tail: string)
    requires IsWord(['-'] + first) && IsWord(['+'] + second) && tail != "" && tail[0] == ' '
    ensures Words(HeaderLine(first, second, tail)) == ["@@", ['-'] + first, ['+'] + second] + Words(tail)
  {
    hide Words;
    var third := (['+'] + second) + tail;
    var rest := (['-'] + first) + (" " + third);
    WordFirst("@@", " " + rest);
    SpaceFirst(rest);
    WordFirst(['-'] + first, " " + third);
    SpaceFirst(third);
    WordFirst(['+'] + second, tail);
  }

  // ---- the parser on a rendered diff ----

  /** An edit whose shown line is not mistaken for a file header. */
  predicate IsShown(e: Edit) {
    && (e.Insert? ==> !StartsWith(e.text, "++"))
    && (e.Delete? ==> !StartsWith(e.text, "--"))
  }

  predicate AllShown(edits: seq<Edit>) {
    forall i :: 0 <= i < |edits| ==> IsShown(edits[i])
  }

  function Shown(edits: seq<Edit>): seq<Edit> {
    if edits == [] then [] else if IsShown(edits[0]) then [edits[0]] + Shown(edits[1..]) else Shown(edits[1..])
  }

  // What the parser makes of one line of a hunk body.
  lemma LineKind(e: Edit)
    ensures ParseHunkHeader(Line(e)) == None
    ensures IsFileHeader(Line(e)) <==> !IsShown(e)
    ensures StartsWith(Line(e), "+") <==> e.Insert?
    ensures StartsWith(Line(e), "-") <==> e.Delete?
    ensures StartsWith(Line(e), " ") <==> e.Keep?
  {
    SignedPrefix("+", e.text, "++");
    SignedPrefix("-", e.text, "--");
    assert "+" + "++" == "+++" && "-" + "--" == "---";
    assert Line(e)[0] == if e.Keep? then ' ' else if e.Insert? then '+' else '-';
  }

  lemma LineIsRead(e: Edit, rest: seq<string>, o: nat, n: nat)
    ensures var parsed := ParseFrom([Line(e)] + rest, o, n);
            if !IsShown(e) then parsed == ParseFrom(rest, o, n)
            else
              match e
              case Keep(_, _) => parsed == ParseFrom(rest, o + 1, n + 1)
              case Delete(_, _) =>
                parsed == ([o] + ParseFrom(rest, o + 1, n).0, ParseFrom(rest, o + 1, n).1)
              case Insert(_, _) =>
                parsed == (ParseFrom(rest, o, n + 1).0, [n] + ParseFrom(rest, o, n + 1).1)
  {
    hide Line, IsShown, IsFileHeader, ParseHunkHeader, StartsWith;
    LineKind(e);
    assert ([Line(e)] + rest)[1..] == rest;
  }

  // A note is no line of either file.
  lemma NoteIsSkipped(e: Edit, rest: seq<string>, o: nat, n: nat)
    ensures ParseFrom(Note(e) + rest, o, n) == ParseFrom(rest, o, n)
  {
    if e.bare {
      assert NO_NEWLINE[0] == '\\';
      assert (Note(e) + rest)[1..] == rest;
    } else {
      assert Note(e) + rest == rest;
    }
  }

  function Prepend(numbers: (seq<nat>, seq<nat>), after: (seq<nat>, seq<nat>)): (seq<nat>, seq<nat>) {
    (numbers.0 + after.0, numbers.1 + after.1)
  }

  function Numbers(edits: seq<Edit>, o: nat, n: nat): (seq<nat>, seq<nat>) {
    (Deleted(edits, o), Inserted(edits, n))
  }

  // Numbers of one more edit in front.
  lemma NumbersOfFirst(e: Edit, more: seq<Edit>, o: nat, n: nat, after: (seq<nat>, seq<nat>))
    ensures var next := Prepend(Numbers(more, if e.Insert? then o else o + 1, if e.Delete? then n else n + 1), after);
            Prepend(Numbers([e] + more, o, n), after) ==
            match e
            case Keep(_, _) => next
            case Delete(_, _) => ([o] + next.0, next.1)
            case Insert(_, _) => (next.0, [n] + next.1)
  {
    assert ([e] + more)[1..] == more;
    assert [o] + Deleted(more, o + 1) + after.0 == [o] + (Deleted(more, o + 1) + after.0);
    assert [n] + Inserted(more, n + 1) + after.1 == [n] + (Inserted(more, n + 1) + after.1);
  }

  lemma NothingToPrepend(after: (seq<nat>, seq<nat>))
    ensures Prepend(([], []), after) == after
  {
    assert [] + after.0 == after.0 && [] + after.1 == after.1;
  }

  // A hunk body: the parser numbers the edits it recognises.
  lemma {:induction false} BodyIsRead(edits: seq<Edit>, rest: seq<string>, o: nat, n: nat)
    ensures var shown := Shown(edits);
            ParseFrom(Body(edits) + rest, o, n) ==
            Prepend(Numbers(shown, o, n), ParseFrom(rest, o + |Old(shown)|, n + |New(shown)|))
  {
    hide ParseFrom, Prepend, Line, Note;
    if edits == [] {
      assert Body(edits) + rest == rest;
      NothingToPrepend(ParseFrom(rest, o, n));
    } else {
      var e, more := edits[0], edits[1..];
      var tail := Note(e) + (Body(more) + rest);
      assert Body(edits) + rest == [Line(e)] + tail;
      LineIsRead(e, tail, o, n);
      var o1 := if IsShown(e) && !e.Insert? then o + 1 else o;
      var n1 := if IsShown(e) && !e.Delete? then n + 1 else n;
      NoteIsSkipped(e, Body(more) + rest, o1, n1);
      BodyIsRead(more, rest, o1, n1);
      if IsShown(e) {
        var shown := Shown(more);
        assert Shown(edits) == [e] + shown && Shown(edits)[1..] == shown;
        NumbersOfFirst(e, shown, o, n, ParseFrom(rest, o1 + |Old(shown)|, n1 + |New(shown)|));
      }
    }
  }

  lemma {:induction false} AllShownIsShown(edits: seq<Edit>)
    requires AllShown(edits)
    ensures Shown(edits) == edits
  {
    if edits != [] {
      AllShownIsShown(edits[1..]);
    }
  }

  lemma {:induction false} FilesOf(edits: seq<Edit>, more: seq<Edit>)
    ensures Old(edits + more) == Old(edits) + Old(more) && New(edits + more) == New(edits) + New(more)
  {
    if edits == [] {
      assert edits + more == more;
    } else {
      assert (edits + more)[1..] == edits[1..] + more;
      FilesOf(edits[1..], more);
    }
  }

  lemma {:induction false} NumbersOf(edits: seq<Edit>, more: seq<Edit>, o: nat, n: nat)
    ensures Numbers(edits + more, o, n) ==
            Prepend(Numbers(edits, o, n), Numbers(more, o + |Old(edits)|, n + |New(edits)|))
  {
    hide Prepend;
    if edits == [] {
      assert edits + more == more;
      NothingToPrepend(Numbers(more, o, n));
    } else {
      var e, rest := edits[0], edits[1..];
      assert [e] + (rest + more) == edits + more && [e] + rest == edits;
      var o1, n1 := if e.Insert? then o else o + 1, if e.Delete? then n else n + 1;
      NumbersOf(rest, more, o1, n1);
      NumbersOfFirst(e, rest, o, n, Numbers(more, o1 + |Old(rest)|, n1 + |New(rest)|));
      NumbersOfFirst(e, rest + more, o, n, ([], []));
      PrependNothing(Numbers(rest + more, o1, n1));
      PrependNothing(Numbers(edits + more, o, n));
    }
  }

  lemma PrependNothing(numbers: (seq<nat>, seq<nat>))
    ensures Prepend(numbers, ([], [])) == numbers
  {
    assert numbers.0 + [] == numbers.0 && numbers.1 + [] == numbers.1;
  }

  lemma {:induction false} GapChangesNothing(edits: seq<Edit>, o: nat, n: nat)
    requires forall i :: 0 <= i < |edits| ==> edits[i].Keep?
    ensures Deleted(edits, o) == [] == Inserted(edits, n)
  {
    if edits != [] {
      GapChangesNothing(edits[1..], o + 1, n + 1);
    }
  }

  lemma {:induction false} NoOldLinesNoneDeleted(edits: seq<Edit>, a: nat, b: nat)
    requires |Old(edits)| == 0 || a == b
    ensures Deleted(edits, a) == Deleted(edits, b)
  {
    if edits != [] && |Old(edits)| == 0 {
      NoOldLinesNoneDeleted(edits[1..], a, b);
    }
  }

  lemma {:induction false} NoNewLinesNoneInserted(edits: seq<Edit>, a: nat, b: nat)
    requires |New(edits)| == 0 || a == b
    ensures Inserted(edits, a) == Inserted(edits, b)
  {
    if edits != [] && |New(edits)| == 0 {
      NoNewLinesNoneInserted(edits[1..], a, b);
    }
  }

  // A hunk with its header, whatever the counters were before.
  lemma HunkIsRead(hunk: Segment, tail: seq<string>, o: nat, n: nat, x: nat, y: nat)
    returns (a: nat, b: nat)
    requires hunk.Hunk? && 0 < o < USIZE_LIMIT && 0 < n < USIZE_LIMIT
    ensures var shown := Shown(hunk.edits);
            ParseFrom([Header(hunk, o, n)] + (Body(hunk.edits) + tail), x, y) ==
            Prepend(Numbers(shown, o, n), ParseFrom(tail, a, b))
  {
    hide Header, Body, Prepend, ParseHunkHeader;
    var edits, shown, line := hunk.edits, Shown(hunk.edits), Header(hunk, o, n);
    var start, start' := if |Old(edits)| == 0 then o - 1 else o, if |New(edits)| == 0 then n - 1 else n;
    HeaderIsRead(hunk, o, n);
    assert ([line] + (Body(edits) + tail))[1..] == Body(edits) + tail;
    BodyIsRead(edits, tail, start, start');
    ShownIsShorter(edits);
    NoOldLinesNoneDeleted(shown, start, o);
    NoNewLinesNoneInserted(shown, start', n);
    a, b := start + |Old(shown)|, start' + |New(shown)|;
  }

  lemma {:induction false} ShownIsShorter(edits: seq<Edit>)
    ensures |Old(Shown(edits))| <= |Old(edits)| && |New(Shown(edits))| <= |New(edits)|
  {
    if edits != [] {
      ShownIsShorter(edits[1..]);
      if IsShown(edits[0]) {
        assert Shown(edits)[1..] == Shown(edits[1..]);
      }
    }
  }

  /** The numbers the parser reports: each hunk's recognised edits, counted from the hunk's start. */
  function Reported(doc: seq<Segment>, o: nat, n: nat): (seq<nat>, seq<nat>) {
    if doc == [] then ([], [])
    else
      var edits := Edits(doc[0]);
      var rest := Reported(doc[1..], o + |Old(edits)|, n + |New(edits)|);
      if doc[0].Gap? then rest else Prepend(Numbers(Shown(edits), o, n), rest)
  }

  lemma {:induction false} RenderIsRead(doc: seq<Segment>, o: nat, n: nat, x: nat, y: nat)
    requires o > 0 && n > 0
    requires o + |Old(Script(doc))| < USIZE_LIMIT && n + |New(Script(doc))| < USIZE_LIMIT
    ensures ParseFrom(Render(doc, o, n), x, y) == Reported(doc, o, n)
  {
    hide Header, Body, Prepend, Numbers, Shown;
    if doc != [] {
      var edits, rest := Edits(doc[0]), doc[1..];
      var o1, n1 := o + |Old(edits)|, n + |New(edits)|;
      FilesOf(edits, Script(rest));
      if doc[0].Gap? {
        RenderIsRead(rest, o1, n1, x, y);
      } else {
        var a, b := HunkIsRead(doc[0], Render(rest, o1, n1), o, n, x, y);
        RenderIsRead(rest, o1, n1, a, b);
      }
    }
  }

  lemma {:induction false} AllShownReported(doc: seq<Segment>, o: nat, n: nat)
    requires AllShown(Script(doc))
    ensures Reported(doc, o, n) == Numbers(Script(doc), o, n)
  {
    hide Prepend, IsShown;
    if doc != [] {
      var edits, rest := Edits(doc[0]), doc[1..];
      assert Script(rest) == Script(doc)[|edits|..] && edits == Script(doc)[..|edits|];
      NumbersOf(edits, Script(rest), o, n);
      AllShownReported(rest, o + |Old(edits)|, n + |New(edits)|);
      if doc[0].Gap? {
        GapChangesNothing(edits, o, n);
        NothingToPrepend(Numbers(Script(rest), o + |Old(edits)|, n + |New(edits)|));
      } else {
        AllShownIsShown(edits);
      }
    }
  }

  function Count(numbers: (seq<nat>, seq<nat>)): nat {
    |numbers.0| + |numbers.1|
  }

  // Every edit that is not shown goes missing from one of the two lists.
  lemma {:induction false} ShownCount(edits: seq<Edit>, o: nat, n: nat, o': nat, n': nat)
    ensures Count(Numbers(Shown(edits), o, n)) <= Count(Numbers(edits, o', n'))
    ensures !AllShown(edits) ==> Count(Numbers(Shown(edits), o, n)) < Count(Numbers(edits, o', n'))
  {
    if edits != [] {
      var e, more := edits[0], edits[1..];
      var o1, n1 := if IsShown(e) && !e.Insert? then o + 1 else o, if IsShown(e) && !e.Delete? then n + 1 else n;
      ShownCount(more, o1, n1, if e.Insert? then o' else o' + 1, if e.Delete? then n' else n' + 1);
      if IsShown(e) {
        assert Shown(edits)[1..] == Shown(more);
      }
      assert AllShown(edits) <==> IsShown(e) && AllShown(more);
    }
  }

  lemma CountOfPrepend(numbers: (seq<nat>, seq<nat>), after: (seq<nat>, seq<nat>))
    ensures Count(Prepend(numbers, after)) == Count(numbers) + Count(after)
  {
  }

  lemma AllShownSplits(edits: seq<Edit>, more: seq<Edit>)
    ensures AllShown(edits + more) <==> AllShown(edits) && AllShown(more)
  {
    assert forall i :: 0 <= i < |edits| ==> (edits + more)[i] == edits[i];
    assert forall i :: 0 <= i < |more| ==> (edits + more)[|edits| + i] == more[i];
  }

  lemma GapIsShown(s: Segment)
    requires s.Gap?
    ensures AllShown(Edits(s))
  {
  }

  lemma NothingReported(o: nat, n: nat)
    ensures AllShown([]) && Reported([], o, n) == Numbers([], o, n)
  {
  }

  lemma {:induction false} ReportedCount(doc: seq<Segment>, o: nat, n: nat)
    ensures Count(Reported(doc, o, n)) <= Count(Numbers(Script(doc), o, n))
    ensures !AllShown(Script(doc)) ==> Count(Reported(doc, o, n)) < Count(Numbers(Script(doc), o, n))
  {
    hide Prepend, Numbers, Shown, AllShown, Count, Edits;
    if doc == [] {
      NothingReported(o, n);
    } else {
      var edits, rest := Edits(doc[0]), doc[1..];
      var o1, n1 := o + |Old(edits)|, n + |New(edits)|;
      NumbersOf(edits, Script(rest), o, n);
      CountOfPrepend(Numbers(edits, o, n), Numbers(Script(rest), o1, n1));
      CountOfPrepend(Numbers(Shown(edits), o, n), Reported(rest, o1, n1));
      ReportedCount(rest, o1, n1);
      ShownCount(edits, o, n, o, n);
      AllShownSplits(edits, Script(rest));
      if doc[0].Gap? {
        GapIsShown(doc[0]);
      }
    }
  }

  lemma LinesReportTheScriptIff(preamble: seq<string>, doc: seq<Segment>)
    requires forall i :: 0 <= i < |preamble| ==> IsPreamble(preamble[i])
    requires 1 + |Old(Script(doc))| < USIZE_LIMIT && 1 + |New(Script(doc))| < USIZE_LIMIT
    ensures ParseFrom(preamble + Render(doc, 1, 1), 0, 0) == Numbers(Script(doc), 1, 1) <==> AllShown(Script(doc))
  {
    PreambleIsSkipped(preamble, doc, 0, 0);
    if AllShown(Script(doc)) {
      AllShownReported(doc, 1, 1);
    } else {
      ReportedCount(doc, 1, 1);
    }
  }

  /** A line before the hunks: a file header, or anything that is not read as an added or deleted line. */
  predicate IsPreamble(line: string) {
    ParseHunkHeader(line) == None
    && (IsFileHeader(line) || (!StartsWith(line, "+") && !StartsWith(line, "-")))
  }

  lemma {:induction false} PreambleIsSkipped(preamble: seq<string>, doc: seq<Segment>, x: nat, y: nat)
    requires forall i :: 0 <= i < |preamble| ==> IsPreamble(preamble[i])
    requires 1 + |Old(Script(doc))| < USIZE_LIMIT && 1 + |New(Script(doc))| < USIZE_LIMIT
    ensures ParseFrom(preamble + Render(doc, 1, 1), x, y) == Reported(doc, 1, 1)
    decreases |preamble|
  {
    hide Render, Reported, ParseHunkHeader;
    var lines := preamble + Render(doc, 1, 1);
    if preamble == [] {
      assert lines == Render(doc, 1, 1);
      RenderIsRead(doc, 1, 1, x, y);
    } else {
      assert lines[1..] == preamble[1..] + Render(doc, 1, 1) && lines[0] == preamble[0];
      PreambleIsSkipped(preamble[1..], doc, x, y);
      PreambleIsSkipped(preamble[1..], doc, x + 1, y + 1);
    }
  }

  /** A blank context line that lost its space counts in both files, and any other line in none. */
  lemma OtherLines(line: string, rest: seq<string>, o: nat, n: nat)
    requires ParseHunkHeader(line) == None && !StartsWith(line, "+") && !StartsWith(line, "-")
    ensures ParseFrom([line] + rest, o, n) ==
            if line == "" || line[0] == ' ' then ParseFrom(rest, o + 1, n + 1) else ParseFrom(rest, o, n)
  {
    assert ([line] + rest)[1..] == rest;
    assert line != "" ==> (StartsWith(line, " ") <==> line[0] == ' ');
    LongerPrefix(line, "+", "+++");
    LongerPrefix(line, "-", "---");
  }

  lemma LongerPrefix(line: string, short: string, long: string)
    requires short <= long
    ensures StartsWith(line, long) ==> StartsWith(line, short)
  {
  }

  // ---- line ends ----

  lemma StripOfConcat(a: string, b: string)
    requires a != "" && a[|a| - 1] != '\r'
    ensures StripCarriageReturn(a + b) == a + StripCarriageReturn(b)
  {
    if b == "" {
      assert a + b == a;
    } else {
      assert (a + b)[..|a| + |b| - 1] == a + b[..|b| - 1];
    }
  }

  function StripEdit(e: Edit): Edit {
    e.(text := StripCarriageReturn(e.text))
  }

  function StripEdits(edits: seq<Edit>): seq<Edit> {
    seq(|edits|, i requires 0 <= i < |edits| => StripEdit(edits[i]))
  }

  /** The diff that a reader of the text sees: a carriage return at a line's end goes with the newline. */
  function StripDoc(doc: seq<Segment>): seq<Segment> {
    if doc == [] then []
    else
      [match doc[0]
       case Gap(lines) => Gap(StripAll(lines))
       case Hunk(edits, heading) => Hunk(StripEdits(edits), StripCarriageReturn(heading))] + StripDoc(doc[1..])
  }

  lemma StripAllOfConcat(a: seq<string>, b: seq<string>)
    ensures StripAll(a + b) == StripAll(a) + StripAll(b)
  {
  }

  lemma StripOfLine(e: Edit)
    ensures StripCarriageReturn(Line(e)) == Line(StripEdit(e)) && StripAll(Note(e)) == Note(StripEdit(e))
    ensures IsShown(StripEdit(e)) <==> IsShown(e)
  {
    StripOfConcat(" ", e.text);
    StripOfConcat("-", e.text);
    StripOfConcat("+", e.text);
    assert NO_NEWLINE[|NO_NEWLINE| - 1] == 'e';
    assert StripCarriageReturn(NO_NEWLINE) == NO_NEWLINE;
  }

  lemma {:induction false} StripOfBody(edits: seq<Edit>)
    ensures StripAll(Body(edits)) == Body(StripEdits(edits))
  {
    hide Line, Note, StripCarriageReturn;
    if edits != [] {
      var e, more := edits[0], edits[1..];
      StripOfLine(e);
      StripOfBody(more);
      StripAllOfConcat([Line(e)], Note(e) + Body(more));
      StripAllOfConcat(Note(e), Body(more));
      assert StripAll([Line(e)]) == [StripCarriageReturn(Line(e))];
      assert StripEdits(edits)[1..] == StripEdits(more);
    }
  }

  // Nothing that is counted depends on line ends.
  lemma {:induction false} StripKeepsNumbers(edits: seq<Edit>, o: nat, n: nat)
    ensures var stripped := StripEdits(edits);
            && Numbers(stripped, o, n) == Numbers(edits, o, n)
            && |Old(stripped)| == |Old(edits)| && |New(stripped)| == |New(edits)|
  {
    if edits != [] {
      var e := edits[0];
      StripKeepsNumbers(edits[1..], if e.Insert? then o else o + 1, if e.Delete? then n else n + 1);
      assert StripEdits(edits)[1..] == StripEdits(edits[1..]);
    }
  }

  lemma StripKeepsShown(edits: seq<Edit>)
    ensures AllShown(StripEdits(edits)) <==> AllShown(edits)
  {
    hide IsShown, StripEdit;
    forall i | 0 <= i < |edits|
      ensures IsShown(StripEdits(edits)[i]) <==> IsShown(edits[i])
    {
      StripOfLine(edits[i]);
    }
    assert forall i :: 0 <= i < |edits| ==> (IsShown(StripEdits(edits)[i]) <==> IsShown(edits[i]));
  }

  lemma StripOfSegment(s: Segment, more: seq<Segment>)
    ensures Edits(StripDoc([s] + more)[0]) == StripEdits(Edits(s)) && StripDoc([s] + more)[1..] == StripDoc(more)
  {
    assert ([s] + more)[1..] == more;
  }

  lemma StripOfHeader(hunk: Segment, o: nat, n: nat)
    requires hunk.Hunk? && o > 0 && n > 0
    ensures var stripped := Hunk(StripEdits(hunk.edits), StripCarriageReturn(hunk.heading));
            StripCarriageReturn(Header(hunk, o, n)) == Header(stripped, o, n)
  {
    hide Range, StripCarriageReturn;
    StripKeepsNumbers(hunk.edits, o, n);
    var line := "@@ -" + Range(o, |Old(hunk.edits)|) + " +" + Range(n, |New(hunk.edits)|) + " @@";
    StripOfConcat(line, hunk.heading);
  }

  lemma {:induction false} StripOfRender(doc: seq<Segment>, o: nat, n: nat)
    requires o > 0 && n > 0
    ensures StripAll(Render(doc, o, n)) == Render(StripDoc(doc), o, n)
    ensures Script(StripDoc(doc)) == StripEdits(Script(doc))
  {
    hide Header, Body, StripCarriageReturn, StripEdit, Edits;
    if doc != [] {
      var edits, more := Edits(doc[0]), doc[1..];
      assert doc == [doc[0]] + more;
      StripOfSegment(doc[0], more);
      StripKeepsNumbers(edits, o, n);
      var o1, n1 := o + |Old(edits)|, n + |New(edits)|;
      StripOfRender(more, o1, n1);
      assert StripEdits(edits + Script(more)) == StripEdits(edits) + StripEdits(Script(more));
      if doc[0].Hunk? {
        HunkEdits(doc[0]);
        StripOfHunk(doc[0], o, n, Render(more, o1, n1));
      }
    }
  }

  lemma StripOfHunk(hunk: Segment, o: nat, n: nat, rest: seq<string>)
    requires hunk.Hunk? && o > 0 && n > 0
    ensures var stripped := Hunk(StripEdits(hunk.edits), StripCarriageReturn(hunk.heading));
            StripAll([Header(hunk, o, n)] + (Body(hunk.edits) + rest)) ==
            [Header(stripped, o, n)] + (Body(stripped.edits) + StripAll(rest))
  {
    hide Header, Body, StripCarriageReturn, StripEdits;
    var header := Header(hunk, o, n);
    StripOfHeader(hunk, o, n);
    StripOfBody(hunk.edits);
    StripAllOfConcat([header], Body(hunk.edits) + rest);
    StripAllOfConcat(Body(hunk.edits), rest);
    assert StripAll([header]) == [StripCarriageReturn(header)];
  }

  lemma HunkEdits(s: Segment)
    requires s.Hunk?
    ensures Edits(s) == s.edits
  {
  }

  // ---- the parser on the text of a diff ----

  /** The lines can be told apart in a text, and none before the hunks is read as an added or deleted one. */
  predicate IsDiffText(preamble: seq<string>, doc: seq<Segment>) {
    && (forall line :: line in preamble + Render(doc, 1, 1) ==> '\n' !in line)
    && (forall i :: 0 <= i < |preamble| ==> IsPreamble(StripCarriageReturn(preamble[i])))
    && 1 + |Old(Script(doc))| < USIZE_LIMIT && 1 + |New(Script(doc))| < USIZE_LIMIT
  }

  /** The lists reported for the text of a diff are the deleted and added line numbers of its script exactly when no
      added line starts with "++" and no deleted line with "--", whatever the line ends, whether or not the files end
      in a newline, and whatever precedes the first hunk. */
  lemma ReportsTheScriptIff(preamble: seq<string>, doc: seq<Segment>)
    requires IsDiffText(preamble, doc)
    ensures ParseFrom(Lines(Unlines(preamble + Render(doc, 1, 1))), 0, 0) == Numbers(Script(doc), 1, 1)
            <==> AllShown(Script(doc))
  {
    hide ParseFrom, Render, AllShown, Numbers, IsPreamble, StripCarriageReturn;
    LinesOfUnlines(preamble + Render(doc, 1, 1));
    StripAllOfConcat(preamble, Render(doc, 1, 1));
    StripOfRender(doc, 1, 1);
    StripKeepsNumbers(Script(doc), 1, 1);
    StripKeepsShown(Script(doc));
    LinesReportTheScriptIff(StripAll(preamble), StripDoc(doc));
  }

  /** Dropping what the parser reports from the old and the new file leaves the same lines. */
  lemma ReportedLinesReconcile(preamble: seq<string>, doc: seq<Segment>)
    requires IsDiffText(preamble, doc) && AllShown(Script(doc))
    ensures var (deleted, added) := ParseFrom(Lines(Unlines(preamble + Render(doc, 1, 1))), 0, 0);
            && IncreasingFrom(deleted, 1) && IncreasingFrom(added, 1)
            && Drop(Old(Script(doc)), 1, deleted) == Drop(New(Script(doc)), 1, added) == Kept(Script(doc))
  {
    ReportsTheScriptIff(preamble, doc);
    NumbersIncrease(Script(doc), 1, 1);
    DroppingDeletedLeavesKept(Script(doc), 1);
    DroppingInsertedLeavesKept(Script(doc), 1);
  }
}
