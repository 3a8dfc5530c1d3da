/** The recent lines of a transcript file: a tail of bounded size, its first line dropped, the last lines kept. */
module RecentLines {
  import opened Wrappers
  import opened Text
  import opened Utf8
  import opened ForkPrompt

  function TailStart(length: nat, maxBytes: nat): nat {
    if length <= maxBytes then 0 else length - maxBytes
  }

  /** What follows the first newline; everything when there is none. */
  function AfterNewline(s: string): string {
    var i := IndexOf(s, '\n');
    if i == |s| then s else s[i + 1..]
  }

  function NonBlank(lines: seq<string>): seq<string> {
    if lines == [] then []
    else
      var before, last := NonBlank(lines[..|lines| - 1]), lines[|lines| - 1];
      if Trim(last) == "" then before else before + [last]
  }

  /** A bound of 0 never takes effect. */
  function Window(lines: seq<string>, max: nat): seq<string> {
    if max == 0 then lines else LastSnippets(lines, max)
  }

  function LinesOfTail(text: string, start: nat, maxLines: nat): seq<string> {
    Window(NonBlank(Lines(if start > 0 then AfterNewline(text) else text)), maxLines)
  }

  /** None stands for a file that cannot be opened or read. */
  function Recent(file: Option<Octets>, maxBytes: nat, maxLines: nat): seq<string> {
    match file
    case None => []
    case Some(bytes) =>
      var start := TailStart(|bytes|, maxBytes);
      match Decode(bytes[start..])
      case None => []
      case Some(text) => LinesOfTail(text, start, maxLines)
  }

  method ReadRecentLines(file: Option<Octets>, maxBytes: nat, maxLines: nat) returns (lines: seq<string>)
    ensures lines == Recent(file, maxBytes, maxLines)
  {
    lines := [];
    if file == None {
      return;
    }
    var bytes := file.value;
    var start := TailStart(|bytes|, maxBytes);
    var decoded := Decode(bytes[start..]);
    if decoded == None {
      return;
    }
    var text := decoded.value;
    if start > 0 {
      text := AfterNewline(text);
    }
    lines := KeepLast(Lines(text), maxLines);
  }

  lemma NonBlankNext(all: seq<string>, i: nat)
    requires i < |all|
    ensures NonBlank(all[..i + 1]) == NonBlank(all[..i]) + if Trim(all[i]) == "" then [] else [all[i]]
  {
    assert all[..i + 1][..i] == all[..i];
  }

  // A full window drops its first line for the next.
  lemma WindowNext(lines: seq<string>, line: string, max: nat)
    ensures var window := Window(lines, max);
            Window(lines + [line], max) ==
            (if |window| == max && window != [] then window[1..] else window) + [line]
  {
  }

  // The loop over the lines, with its queue.
  method KeepLast(all: seq<string>, maxLines: nat) returns (lines: seq<string>)
    ensures lines == Window(NonBlank(all), maxLines)
  {
    lines := [];
    assert all[..0] == [] && Window(NonBlank([]), maxLines) == [];
    hide NonBlank, Window, Trim;
    for i := 0 to |all|
      invariant lines == Window(NonBlank(all[..i]), maxLines)
    {
      NonBlankNext(all, i);
      WindowNext(NonBlank(all[..i]), all[i], maxLines);
      if Trim(all[i]) == "" {
        continue;
      }
      if |lines| == maxLines && lines != [] {
        lines := lines[1..];
      }
      lines := lines + [all[i]];
    }
    assert all[..|all|] == all;
  }

  // ---- what the lines are ----

  /** For a file of valid text: no line when the tail begins inside a character, else the last non-blank lines
      behind the first newline of the characters left, or of all characters when the file is small enough. */
  lemma RecentOfText(s: string, maxBytes: nat, maxLines: nat)
    ensures var start := TailStart(|EncodeAll(s)|, maxBytes);
            Recent(Some(EncodeAll(s)), maxBytes, maxLines) ==
            match CharsBefore(s, start)
            case None => []
            case Some(k) => if k <= |s| then LinesOfTail(s[k..], start, maxLines) else []
  {
    TailDecodesIff(s, TailStart(|EncodeAll(s)|, maxBytes));
  }

  predicate IsTail(a: seq<string>, b: seq<string>) {
    |a| <= |b| && b[|b| - |a|..] == a
  }

  lemma LinesOfFirst(line: string, rest: string)
    requires '\n' !in line
    ensures Lines(line + ['\n'] + rest) == [StripCarriageReturn(line)] + Lines(rest)
  {
    var s := line + ['\n'] + rest;
    IndexOfFirst(line, '\n', rest);
    assert s[..|line|] == line && s[|line| + 1..] == rest;
  }

  lemma {:induction false} FoundIff(s: string, c: char)
    ensures c in s <==> IndexOf(s, c) < |s|
  {
    if s != "" {
      FoundIff(s[1..], c);
      assert s == [s[0]] + s[1..];
    }
  }

  lemma SplitAt(s: string, i: nat)
    requires i < |s|
    ensures s == s[..i] + [s[i]] + s[i + 1..]
  {
  }

  lemma NewlineIsFound(s: string)
    requires '\n' in s
    ensures var i := IndexOf(s, '\n');
            i < |s| && s == s[..i] + ['\n'] + s[i + 1..] && '\n' !in s[..i]
  {
    hide IndexOf;
    FoundIff(s, '\n');
    SplitAt(s, IndexOf(s, '\n'));
  }

  lemma NewlineBefore(s: string, k: nat, j: nat)
    requires k <= |s| && j <= |s|
    ensures k < j && s[j - 1] == '\n' ==> '\n' in s[k..]
  {
    assert k < j ==> s[k..][j - 1 - k] == s[j - 1];
  }

  lemma {:induction false} LinesOfConcat(head: string, rest: string)
    requires head != "" && head[|head| - 1] == '\n'
    ensures Lines(head + rest) == Lines(head) + Lines(rest)
    decreases |head|
  {
    hide Lines, IndexOf, StripCarriageReturn;
    NewlineIsFound(head);
    var i := IndexOf(head, '\n');
    var line, more := head[..i], head[i + 1..];
    assert head + rest == line + ['\n'] + (more + rest);
    LinesOfFirst(line, more);
    LinesOfFirst(line, more + rest);
    if more == "" {
      assert more + rest == rest;
      OneLine(more);
    } else {
      LinesOfConcat(more, rest);
    }
  }

  lemma {:induction false} NonBlankOfConcat(a: seq<string>, b: seq<string>)
    ensures NonBlank(a + b) == NonBlank(a) + NonBlank(b)
    decreases |b|
  {
    hide Trim;
    if b == [] {
      assert a + b == a;
    } else {
      assert (a + b)[..|a + b| - 1] == a + b[..|b| - 1];
      NonBlankOfConcat(a, b[..|b| - 1]);
    }
  }

  lemma WindowIsTail(before: seq<string>, lines: seq<string>, max: nat)
    ensures IsTail(Window(lines, max), before + lines)
  {
  }

  lemma OneLine(s: string)
    requires '\n' !in s
    ensures Lines(s) == if s == "" then [] else [s]
  {
    assert s[..|s|] == s;
    IndexOfFirst(s, '\n', "");
  }

  /** No newline from position `k` on. */
  predicate IsOpenEnd(s: string, k: nat)
    requires k <= |s|
  {
    '\n' !in s[k..]
  }

  /** Where the last line of a text begins. */
  function LastLineStart(s: string): (j: nat)
    ensures j <= |s| && IsOpenEnd(s, j) && (j > 0 ==> s[j - 1] == '\n')
  {
    if s == "" || s[|s| - 1] == '\n' then |s|
    else
      var j := LastLineStart(s[..|s| - 1]);
      assert s[j..] == s[..|s| - 1][j..] + [s[|s| - 1]];
      j
  }

  lemma {:induction false} BlankIff(s: string)
    ensures Trim(s) == "" <==> forall i :: 0 <= i < |s| ==> IsWhitespace(s[i])
  {
    TrimStartBlankIff(s);
    TrimStartShape(s);
    TrimEndKeeps(TrimStart(s));
  }

  lemma {:induction false} TrimStartBlankIff(s: string)
    ensures TrimStart(s) == "" <==> forall i :: 0 <= i < |s| ==> IsWhitespace(s[i])
  {
    hide IsWhitespace;
    if s != "" {
      TrimStartBlankIff(s[1..]);
      assert forall i :: 1 <= i < |s| ==> s[i] == s[1..][i - 1];
    }
  }

  lemma {:induction false} TrimEndKeeps(s: string)
    requires s != "" ==> !IsWhitespace(s[0])
    ensures TrimEnd(s) == "" <==> s == ""
  {
    if s != "" && IsWhitespace(s[|s| - 1]) {
      TrimEndKeeps(s[..|s| - 1]);
    }
  }

  lemma LastLineIsNotBlank(s: string, k: nat)
    requires k <= |s| && IsOpenEnd(s, k) && Trim(s[k..]) != ""
    ensures LastLineStart(s) <= k && Trim(s[LastLineStart(s)..]) != ""
  {
    hide Trim, IsWhitespace, LastLineStart;
    var j := LastLineStart(s);
    NewlineBefore(s, k, j);
    BlankRest(s[j..], k - j);
    assert s[j..][k - j..] == s[k..];
  }

  lemma BlankRest(s: string, n: nat)
    requires n <= |s|
    ensures Trim(s) == "" ==> Trim(s[n..]) == ""
  {
    hide Trim, IsWhitespace;
    BlankIff(s);
    BlankIff(s[n..]);
  }

  lemma LastOfLines(s: string)
    requires s[LastLineStart(s)..] != ""
    ensures Lines(s) != [] && Lines(s)[|Lines(s)| - 1] == s[LastLineStart(s)..]
  {
    hide Lines, LastLineStart;
    var j := LastLineStart(s);
    OneLine(s[j..]);
    if j > 0 {
      assert s[..j] + s[j..] == s;
      LinesOfConcat(s[..j], s[j..]);
    } else {
      assert s[0..] == s;
    }
  }

  // The last line of a text that ends in something other than blanks.
  lemma LastLineIsKept(s: string, k: nat)
    requires k <= |s| && IsOpenEnd(s, k) && Trim(s[k..]) != ""
    ensures var all := NonBlank(Lines(s));
            LastLineStart(s) <= k && all != [] && all[|all| - 1] == s[LastLineStart(s)..]
  {
    LastLineIsNotBlank(s, k);
    assert Trim("") == "";
    hide Trim, LastLineStart, Lines;
    LastOfLines(s);
  }

  lemma SplitInside(s: string, k: nat, i: nat)
    requires k + i < |s|
    ensures var head, rest := s[..k + i + 1], s[k + i + 1..];
            |s[k..]| == |s| - k && s[k..][i + 1..] == rest && head + rest == s
            && head[|head| - 1] == s[k..][i]
  {
  }

  lemma AfterIsTail(head: string, rest: string, maxLines: nat)
    requires head != "" && head[|head| - 1] == '\n'
    ensures IsTail(Window(NonBlank(Lines(rest)), maxLines), NonBlank(Lines(head + rest)))
  {
    hide Lines, NonBlank, Window, IsTail;
    LinesOfConcat(head, rest);
    NonBlankOfConcat(Lines(head), Lines(rest));
    WindowIsTail(NonBlank(Lines(head)), NonBlank(Lines(rest)), maxLines);
  }

  lemma TailWithNewline(s: string, k: nat, start: nat, maxLines: nat)
    requires k <= |s| && start > 0 && '\n' in s[k..]
    ensures IsTail(LinesOfTail(s[k..], start, maxLines), NonBlank(Lines(s)))
  {
    hide Lines, NonBlank, Window, IndexOf, IsTail;
    var i := IndexOf(s[k..], '\n');
    FoundIff(s[k..], '\n');
    SplitInside(s, k, i);
    AfterIsTail(s[..k + i + 1], s[k + i + 1..], maxLines);
  }

  // Without a newline the whole tail is one line, if it is not blank.
  lemma TailIsOneLine(text: string, start: nat, maxLines: nat)
    requires '\n' !in text
    ensures LinesOfTail(text, start, maxLines) == if Trim(text) == "" then [] else [text]
  {
    hide Trim, Lines;
    OneLine(text);
    assert AfterNewline(text) == text by {
      IndexOfFirst(text, '\n', "");
    }
    assert Trim("") == "" by {
      BlankIff("");
    }
    assert NonBlank([]) == [] && [text][..0] == [];
    assert NonBlank([text]) == if Trim(text) == "" then [] else [text];
  }

  lemma OneIsTailIff(line: string, all: seq<string>)
    requires all != []
    ensures IsTail([line], all) <==> line == all[|all| - 1]
  {
  }

  lemma NoneIsTail(all: seq<string>)
    ensures IsTail([], all)
  {
  }

  /** The last line of the text is all of the text from `k` on. */
  predicate LastLineIs(s: string, k: nat)
    requires k <= |s|
  {
    s[LastLineStart(s)..] == s[k..]
  }

  lemma LastLineIsIff(s: string, k: nat)
    requires 0 < k <= |s| && LastLineStart(s) <= k
    ensures LastLineIs(s, k) <==> s[k - 1] == '\n'
  {
    hide LastLineStart;
    var j := LastLineStart(s);
    assert |s[j..]| == |s| - j && |s[k..]| == |s| - k;
    NewlineBefore(s, j, k);
  }

  lemma RestIsTailIff(s: string, k: nat, all: seq<string>)
    requires k <= |s| && all != [] && all[|all| - 1] == s[LastLineStart(s)..]
    ensures IsTail([s[k..]], all) <==> LastLineIs(s, k)
  {
    hide LastLineStart, IsTail;
    OneIsTailIff(s[k..], all);
  }

  lemma LastPartIsTailIff(s: string, k: nat)
    requires 0 < k <= |s| && IsOpenEnd(s, k) && Trim(s[k..]) != ""
    ensures IsTail([s[k..]], NonBlank(Lines(s))) <==> s[k - 1] == '\n'
  {
    hide Trim, Lines, NonBlank, IsTail, LastLineStart, LastLineIs, IndexOf, IsOpenEnd;
    LastLineIsKept(s, k);
    LastLineIsIff(s, k);
    RestIsTailIff(s, k, NonBlank(Lines(s)));
  }

  lemma TailWithoutNewline(s: string, k: nat, start: nat, maxLines: nat)
    requires 0 < k <= |s| && start > 0 && IsOpenEnd(s, k)
    ensures IsTail(LinesOfTail(s[k..], start, maxLines), NonBlank(Lines(s))) <==>
              Trim(s[k..]) == "" || s[k - 1] == '\n'
  {
    hide Trim, Lines, NonBlank, LinesOfTail, IsTail, IndexOf;
    TailIsOneLine(s[k..], start, maxLines);
    if Trim(s[k..]) == "" {
      NoneIsTail(NonBlank(Lines(s)));
    } else {
      LastPartIsTailIff(s, k);
    }
  }

  lemma CharsBeforePositive(s: string, start: nat)
    requires start > 0 && CharsBefore(s, start).Some?
    ensures CharsBefore(s, start).value > 0
  {
  }

  /** The lines returned are the last of the file's non-blank lines, each complete, exactly when the tail begins
      inside a character (and there are none), the file is small enough, a newline or nothing but blanks follows
      the beginning of the tail, or the tail begins with a line. Else the rest of a line is returned as one. */
  lemma RecentAreCompleteIff(s: string, maxBytes: nat, maxLines: nat)
    ensures var start := TailStart(|EncodeAll(s)|, maxBytes);
            IsTail(Recent(Some(EncodeAll(s)), maxBytes, maxLines), NonBlank(Lines(s))) <==>
            match CharsBefore(s, start)
            case None => true
            case Some(k) =>
              start == 0 || (k <= |s| && ('\n' in s[k..] || Trim(s[k..]) == "" || (k > 0 && s[k - 1] == '\n')))
  {
    hide Lines, NonBlank, Window, Trim, LinesOfTail, Recent;
    var start := TailStart(|EncodeAll(s)|, maxBytes);
    RecentOfText(s, maxBytes, maxLines);
    TailDecodesIff(s, start);
    match CharsBefore(s, start)
    case None =>
    case Some(k) =>
      if start == 0 {
        WholeIsTail(s, maxLines);
        assert s[k..] == s;
      } else {
        CharsBeforePositive(s, start);
        if '\n' in s[k..] {
          TailWithNewline(s, k, start, maxLines);
        } else {
          TailWithoutNewline(s, k, start, maxLines);
        }
      }
  }

  lemma WholeIsTail(s: string, maxLines: nat)
    ensures IsTail(LinesOfTail(s, 0, maxLines), NonBlank(Lines(s)))
  {
    hide Lines, NonBlank;
    assert [] + NonBlank(Lines(s)) == NonBlank(Lines(s));
    WindowIsTail([], NonBlank(Lines(s)), maxLines);
  }

  // ---- where the bound cuts ----

  /** Whatever the text, a tail that begins with the second byte of a character gives no line at all. */
  lemma CutCharacterLosesAllLines(text: string, maxLines: nat)
    ensures Recent(Some(EncodeAll("\U{E9}" + text)), |EncodeAll(text)| + 1, maxLines) == []
  {
    hide EncodeAll;
    var s := "\U{E9}" + text;
    EncodeFirst('\U{E9}', text);
    assert s == ['\U{E9}'] + text;
    RecentOfText(s, |EncodeAll(text)| + 1, maxLines);
  }

  lemma EncodeFirst(c: char, text: string)
    ensures EncodeAll([c] + text) == Encode(c) + EncodeAll(text)
  {
    assert ([c] + text)[1..] == text;
  }

  /** Whatever the line, a tail that begins with its second character gives the rest of it as a line. */
  lemma CutLineIsReturned(c: char, rest: string, maxLines: nat)
    requires '\n' !in [c] + rest && Trim(rest) != ""
    ensures Recent(Some(EncodeAll([c] + rest)), |EncodeAll(rest)|, maxLines) == [rest]
    ensures !IsTail([rest], NonBlank(Lines([c] + rest)))
  {
    hide EncodeAll, Lines, NonBlank, Trim, Encode, LinesOfTail, IsTail;
    var s := [c] + rest;
    EncodeFirst(c, rest);
    assert s[1..] == rest;
    CharsBeforeIff(s, |Encode(c)|, 1);
    EncodeFirst(c, "");
    assert s[..1] == [c] + "" && EncodeAll("") == [];
    RecentOfText(s, |EncodeAll(rest)|, maxLines);
    TailIsOneLine(rest, |Encode(c)|, maxLines);
    TailWithoutNewline(s, 1, |Encode(c)|, maxLines);
  }

  /** Of a tail that is cut from a longer file, the first line is dropped, complete or not, and of the others the last
      that are not blank are kept. */
  lemma FirstLineIsDropped(line: string, rest: string, start: nat, maxLines: nat)
    requires start > 0 && '\n' !in line
    ensures LinesOfTail(line + ['\n'] + rest, start, maxLines) == Window(NonBlank(Lines(rest)), maxLines)
  {
    hide Lines, NonBlank, Window;
    IndexOfFirst(line, '\n', rest);
    var text := line + ['\n'] + rest;
    assert text[|line| + 1..] == rest;
  }

  /** As many lines as allowed, the last ones, and exactly those with something in them. */
  lemma WindowIs(lines: seq<string>, max: nat)
    ensures IsTail(Window(lines, max), lines)
    ensures max > 0 ==> |Window(lines, max)| == if |lines| < max then |lines| else max
    ensures max == 0 ==> Window(lines, max) == lines
  {
  }

  lemma {:induction false} NonBlankIs(lines: seq<string>, line: string)
    ensures line in NonBlank(lines) <==> line in lines && Trim(line) != ""
  {
    hide Trim;
    if lines != [] {
      NonBlankIs(lines[..|lines| - 1], line);
      assert lines == lines[..|lines| - 1] + [lines[|lines| - 1]];
    }
  }
}
