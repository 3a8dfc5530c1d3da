/** Which lines of a diff the compactor shows, and when it sets its flag, in terms of the input lines alone. */
module DiffBudget {
  import opened Text
  import opened DiffCompactor

  /** The files begun in the first `n` lines. */
  function FilesTo(lines: seq<string>, n: nat): nat
    requires n <= |lines|
  {
    if n == 0 then 0 else FilesTo(lines, n - 1) + if StartsWith(lines[n - 1], "diff --git ") then 1 else 0
  }

  /** The lines that are no headers since the last file began, in the first `n` lines. */
  function LinesTo(lines: seq<string>, n: nat): nat
    requires n <= |lines|
  {
    if n == 0 || StartsWith(lines[n - 1], "diff --git ") then 0
    else LinesTo(lines, n - 1) + if IsHeader(lines[n - 1]) then 0 else 1
  }

  const HEADERS: set<string> := {
    "diff --git ", "index ", "--- ", "+++ ", "@@ ", "new file mode ", "deleted file mode ", "rename from ",
    "rename to ", "Binary files "
  }

  /** Ten beginnings make a line a header. */
  lemma HeadersAre(line: string)
    ensures IsHeader(line) <==> exists h :: h in HEADERS && StartsWith(line, h)
  {
    hide StartsWith;
  }

  /** A line of a hunk is no header, unless what it adds or deletes begins like a file header. */
  lemma ContextIsNone(text: string)
    ensures !IsHeader(" " + text)
  {
    assert (" " + text)[0] == ' ';
  }

  lemma AddedIsNone(text: string)
    ensures IsHeader("+" + text) <==> StartsWith(text, "++ ")
  {
    assert ("+" + text)[0] == '+' && "+++ " == "+" + "++ ";
    SignedPrefix("+", text, "++ ");
  }

  lemma DeletedIsNone(text: string)
    ensures IsHeader("-" + text) <==> StartsWith(text, "-- ")
  {
    assert ("-" + text)[0] == '-' && "--- " == "-" + "-- ";
    SignedPrefix("-", text, "-- ");
  }

  // ---- the flag ----

  /** Line `i` begins the 81st file or a later one, is past the 80th line of its file that is no header, or does not
      fit into 24,000 bytes behind all lines before it. */
  predicate IsCut(lines: seq<string>, i: nat)
    requires i < |lines|
  {
    || (StartsWith(lines[i], "diff --git ") && FilesTo(lines, i + 1) > 80)
    || (!IsHeader(lines[i]) && LinesTo(lines, i + 1) > 80)
    || Bytes(Join(DropEmpty(lines[..i]))) + Bytes(lines[i]) + 1 > 24_000
  }

  /** Everything so far is shown, and the counters stand where the input says. */
  ghost predicate IsWhole(p: Progress, lines: seq<string>, n: nat)
    requires n <= |lines|
  {
    && p.pieces == AllSources(lines, n) && !p.truncated && !p.stopped && p.includeFile
    && p.files == FilesTo(lines, n) && p.fileLines == LinesTo(lines, n)
  }

  lemma StepOfWhole(p: Progress, lines: seq<string>, n: nat)
    requires n < |lines| && IsWhole(p, lines, n)
    ensures var q := Step(p, n, lines[n]);
            if IsCut(lines, n) then q.truncated else IsWhole(q, lines, n + 1)
  {
    OutputOfAll(lines, n);
    StartIsHeader(lines[n]);
    assert AllSources(lines, n + 1) == AllSources(lines, n) + [Source(n, lines[n])];
    hide IsHeader, Bytes, Output, Join, DropEmpty, AllSources, StartsWith;
  }

  lemma StepKeepsFlag(p: Progress, n: nat, line: string)
    requires p.truncated
    ensures Step(p, n, line).truncated
  {
    hide IsHeader, Bytes, Output, IsFileStart;
  }

  lemma {:induction false} FlagSoFar(lines: seq<string>, n: nat)
    requires n <= |lines|
    ensures After(lines, n).truncated <==> exists i: nat :: i < n && IsCut(lines, i)
    ensures !After(lines, n).truncated ==> IsWhole(After(lines, n), lines, n)
  {
    hide Step, IsCut;
    if n == 0 {
      assert AllSources(lines, 0) == [];
    } else {
      FlagSoFar(lines, n - 1);
      var p := After(lines, n - 1);
      if p.truncated {
        if !p.stopped {
          StepKeepsFlag(p, n - 1, lines[n - 1]);
        }
      } else {
        StepOfWhole(p, lines, n - 1);
      }
    }
  }

  /** The flag is true exactly when some line begins the 81st file, is the 81st of its file that is no header, or
      passes 24,000 bytes; else the whole input is shown. */
  lemma CompactFlagIff(lines: seq<string>)
    ensures Compact(lines).1 <==> exists i: nat :: i < |lines| && IsCut(lines, i)
    ensures (forall i: nat :: i < |lines| ==> !IsCut(lines, i)) ==> Compact(lines) == (Join(DropEmpty(lines)), false)
  {
    hide IsCut, After, Join;
    FlagSoFar(lines, |lines|);
    if !Compact(lines).1 {
      UntruncatedIsTheInput(lines);
    }
  }

  // ---- the lines shown ----

  /** Of the first `n` lines: headers, the first 80 other lines of every file, and a marker in place of the 81st. */
  function Shown(lines: seq<string>, n: nat): seq<Piece>
    requires n <= |lines|
  {
    if n == 0 then []
    else
      var line, count := lines[n - 1], LinesTo(lines, n);
      Shown(lines, n - 1)
      + (if IsHeader(line) || count <= 80 then [Source(n - 1, line)] else if count == 81 then [RestOfFile] else [])
  }

  /** Line `i` ends the compaction: it begins the 81st file or a later one, or is to be shown and does not fit. */
  predicate Ends(lines: seq<string>, i: nat)
    requires i < |lines|
  {
    || (StartsWith(lines[i], "diff --git ") && FilesTo(lines, i + 1) > 80)
    || ((IsHeader(lines[i]) || LinesTo(lines, i + 1) <= 80)
        && Bytes(Output(Shown(lines, i))) + Bytes(lines[i]) + 1 > 24_000)
  }

  /** Before the end everything to be shown is shown, and the counters stand where the input says. */
  ghost predicate IsGoing(p: Progress, lines: seq<string>, n: nat)
    requires n <= |lines|
  {
    && !p.stopped && p.pieces == Shown(lines, n)
    && p.files == FilesTo(lines, n) && p.fileLines == LinesTo(lines, n)
    && (p.includeFile <==> LinesTo(lines, n) <= 80)
    && (p.truncated <==> RestOfFile in p.pieces)
  }

  lemma StepOfGoing(p: Progress, lines: seq<string>, n: nat)
    requires n < |lines| && IsGoing(p, lines, n)
    ensures var q := Step(p, n, lines[n]);
            if Ends(lines, n) then q.stopped && q.truncated && q.pieces == Shown(lines, n)
            else IsGoing(q, lines, n + 1)
  {
    StartIsHeader(lines[n]);
    hide IsHeader, Bytes, Output, StartsWith;
    assert p.pieces + [] == p.pieces;
  }

  /** Line `n` is the first to end the compaction. */
  ghost predicate EndsAt(lines: seq<string>, n: nat)
    requires n < |lines|
  {
    Ends(lines, n) && forall i: nat :: i < n ==> !Ends(lines, i)
  }

  lemma {:induction false} ShownSoFar(lines: seq<string>, n: nat)
    requires n <= |lines|
    ensures (forall i: nat :: i < n ==> !Ends(lines, i)) ==> IsGoing(After(lines, n), lines, n)
    ensures forall m: nat :: m < n && EndsAt(lines, m) ==>
              var p := After(lines, n);
              p.stopped && p.truncated && p.pieces == Shown(lines, m)
  {
    hide Step, Ends, IsGoing;
    if n == 0 {
      StartIsGoing(lines);
    } else {
      ShownSoFar(lines, n - 1);
      var p := After(lines, n - 1);
      if forall i: nat :: i < n - 1 ==> !Ends(lines, i) {
        GoesOn(p, lines, n - 1);
        StepOfGoing(p, lines, n - 1);
      }
    }
  }

  lemma StartIsGoing(lines: seq<string>)
    ensures IsGoing(START, lines, 0)
  {
  }

  lemma GoesOn(p: Progress, lines: seq<string>, n: nat)
    requires n <= |lines| && IsGoing(p, lines, n)
    ensures !p.stopped
  {
  }

  /** The result is, line by line, the headers and the first 80 other lines of every file, with a marker for the rest
      of a file, up to the first line that begins the 81st file or no longer fits; with a final marker exactly when
      something was left out. */
  lemma CompactIs(lines: seq<string>)
    ensures (forall i: nat :: i < |lines| ==> !Ends(lines, i)) ==>
              var shown := Shown(lines, |lines|);
              Compact(lines) == if RestOfFile in shown then (PushLine(Output(shown), END_MARKER), true)
                                else (Output(shown), false)
    ensures forall m: nat :: m < |lines| && EndsAt(lines, m) ==>
              Compact(lines) == (PushLine(Output(Shown(lines, m)), END_MARKER), true)
  {
    hide After, Ends, Output, PushLine, Shown;
    ShownSoFar(lines, |lines|);
  }

  /** The markers and the joining newline are these. */
  lemma MarkersAre(output: string, line: string)
    ensures FILE_MARKER == "... file diff truncated ..." && END_MARKER == "... diff truncated for token budget ..."
    ensures PushLine(output, line) == if output == "" then line else output + "\n" + line
  {
  }
}
