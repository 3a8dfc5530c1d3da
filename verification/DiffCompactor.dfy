/** The diff shown to the model that writes commit messages: bounded in bytes, files and lines per file. */
module DiffCompactor {
  import opened Text

  const MAX_BYTES: nat := 24_000
  const MAX_FILES: nat := 80
  const MAX_LINES_PER_FILE: nat := 80
  const FILE_MARKER := "... file diff truncated ..."
  const END_MARKER := "... diff truncated for token budget ..."

  predicate IsFileStart(line: string) {
    StartsWith(line, "diff --git ")
  }

  predicate IsHeader(line: string) {
    || StartsWith(line, "diff --git ") || StartsWith(line, "index ") || StartsWith(line, "--- ")
    || StartsWith(line, "+++ ") || StartsWith(line, "@@ ") || StartsWith(line, "new file mode ")
    || StartsWith(line, "deleted file mode ") || StartsWith(line, "rename from ")
    || StartsWith(line, "rename to ") || StartsWith(line, "Binary files ")
  }

  /** A line of the input, by its position, or the marker for the rest of a file. */
  datatype Piece = Source(index: nat, line: string) | RestOfFile

  function TextOf(p: Piece): string {
    match p
    case Source(_, line) => line
    case RestOfFile => FILE_MARKER
  }

  function PushLine(output: string, line: string): string {
    if output != "" then output + "\n" + line else line
  }

  function Output(pieces: seq<Piece>): string {
    if pieces == [] then "" else PushLine(Output(pieces[..|pieces| - 1]), TextOf(pieces[|pieces| - 1]))
  }

  datatype Progress = Progress(
    pieces: seq<Piece>, truncated: bool, files: nat, fileLines: nat, includeFile: bool, stopped: bool)

  const START := Progress([], false, 0, 0, true, false)

  /** What one line does. */
  function Step(p: Progress, index: nat, line: string): Progress {
    if IsFileStart(line) && p.files + 1 > MAX_FILES then
      p.(files := p.files + 1, truncated := true, stopped := true)
    else
      var q := if IsFileStart(line) then p.(files := p.files + 1, fileLines := 0, includeFile := true) else p;
      var r := if IsHeader(line) then q else q.(fileLines := q.fileLines + 1);
      if !IsHeader(line) && r.fileLines > MAX_LINES_PER_FILE then
        if r.includeFile then r.(pieces := r.pieces + [RestOfFile], includeFile := false, truncated := true) else r
      else if Bytes(Output(r.pieces)) + Bytes(line) + 1 > MAX_BYTES then r.(truncated := true, stopped := true)
      else r.(pieces := r.pieces + [Source(index, line)])
  }

  /** The state after the first `n` lines. */
  function After(lines: seq<string>, n: nat): Progress
    requires n <= |lines|
  {
    if n == 0 then START
    else
      var p := After(lines, n - 1);
      if p.stopped then p else Step(p, n - 1, lines[n - 1])
  }

  function Compact(lines: seq<string>): (string, bool) {
    var p := After(lines, |lines|);
    (if p.truncated then PushLine(Output(p.pieces), END_MARKER) else Output(p.pieces), p.truncated)
  }

  lemma {:induction false} StoppedStays(lines: seq<string>, n: nat, m: nat)
    requires n <= m <= |lines| && After(lines, n).stopped
    ensures After(lines, m) == After(lines, n)
    decreases m
  {
    hide Step;
    if n < m {
      StoppedStays(lines, n, m - 1);
    }
  }

  method CompactCommitMessageDiff(diff: string) returns (output: string, truncated: bool)
    ensures (output, truncated) == Compact(Lines(diff))
  {
    hide IsHeader, IsFileStart, Bytes, PushLine, Output;
    output, truncated := "", false;
    var fileCount, fileLineCount, includeCurrentFile := 0, 0, true;
    var lines := Lines(diff);
    ghost var p := START;
    OutputOfNone();
    var i := 0;
    while i < |lines|
      invariant 0 <= i <= |lines| && p == After(lines, i) && !p.stopped
      invariant output == Output(p.pieces) && truncated == p.truncated
      invariant fileCount == p.files && fileLineCount == p.fileLines && includeCurrentFile == p.includeFile
    {
      var line := lines[i];
      OutputOfPush(p.pieces, RestOfFile);
      OutputOfPush(p.pieces, Source(i, line));
      p, i := Step(p, i, line), i + 1;
      if IsFileStart(line) {
        fileCount := fileCount + 1;
        if fileCount > MAX_FILES {
          truncated := true;
          StoppedStays(lines, i, |lines|);
          break;
        }
        fileLineCount := 0;
        includeCurrentFile := true;
      }
      if !IsHeader(line) {
        fileLineCount := fileLineCount + 1;
        if fileLineCount > MAX_LINES_PER_FILE {
          if includeCurrentFile {
            output := PushLine(output, FILE_MARKER);
            includeCurrentFile := false;
            truncated := true;
          }
          continue;
        }
      }
      if Bytes(output) + Bytes(line) + 1 > MAX_BYTES {
        truncated := true;
        StoppedStays(lines, i, |lines|);
        break;
      }
      output := PushLine(output, line);
    }
    if truncated {
      output := PushLine(output, END_MARKER);
    }
  }

  lemma OutputOfNone()
    ensures Output([]) == ""
  {
  }

  lemma OutputOfPush(pieces: seq<Piece>, piece: Piece)
    ensures Output(pieces + [piece]) == PushLine(Output(pieces), TextOf(piece))
  {
    assert (pieces + [piece])[..|pieces|] == pieces;
  }

  // ---- the bounds ----

  function FileStarts(pieces: seq<Piece>): nat {
    if pieces == [] then 0
    else
      var last := pieces[|pieces| - 1];
      FileStarts(pieces[..|pieces| - 1]) + if last.Source? && IsFileStart(last.line) then 1 else 0
  }

  /** The non-header lines since the last file start. */
  function OpenLines(pieces: seq<Piece>): nat {
    if pieces == [] then 0
    else
      var last, before := pieces[|pieces| - 1], pieces[..|pieces| - 1];
      if last.Source? && IsFileStart(last.line) then 0
      else OpenLines(before) + if last.Source? && !IsHeader(last.line) then 1 else 0
  }

  /** The markers since the last file start. */
  function OpenMarkers(pieces: seq<Piece>): nat {
    if pieces == [] then 0
    else
      var last, before := pieces[|pieces| - 1], pieces[..|pieces| - 1];
      if last.Source? && IsFileStart(last.line) then 0
      else OpenMarkers(before) + if last.RestOfFile? then 1 else 0
  }

  /** Every file shows at most 80 lines that are no headers, and one marker. */
  ghost predicate FilesBounded(pieces: seq<Piece>) {
    forall k :: 0 <= k <= |pieces| ==> OpenLines(pieces[..k]) <= MAX_LINES_PER_FILE && OpenMarkers(pieces[..k]) <= 1
  }

  /** The shown lines are lines of the input, in their order. */
  ghost predicate InOrder(pieces: seq<Piece>, lines: seq<string>, n: nat) {
    && (forall i :: 0 <= i < |pieces| && pieces[i].Source? ==>
          pieces[i].index < n <= |lines| && lines[pieces[i].index] == pieces[i].line)
    && (forall i, j :: 0 <= i < j < |pieces| && pieces[i].Source? && pieces[j].Source? ==>
          pieces[i].index < pieces[j].index)
  }

  ghost predicate Counted(p: Progress) {
    && FilesBounded(p.pieces)
    && FileStarts(p.pieces) <= p.files && FileStarts(p.pieces) <= MAX_FILES
    && (!p.stopped ==>
          && p.files <= MAX_FILES
          && OpenLines(p.pieces) <= p.fileLines
          && OpenMarkers(p.pieces) == (if p.includeFile then 0 else 1))
  }

  /** Only a file marker may pass the budget, and no line follows it there. */
  ghost predicate Budgeted(p: Progress) {
    && Bytes(Output(p.pieces)) <= MAX_BYTES + 28
    && (!p.stopped && p.includeFile ==> Bytes(Output(p.pieces)) <= MAX_BYTES)
  }

  lemma PushBytes(output: string, line: string)
    ensures Bytes(PushLine(output, line)) <= Bytes(output) + 1 + Bytes(line)
  {
    BytesOfConcat(output + "\n", line);
    BytesOfConcat(output, "\n");
    AsciiBytes("\n");
  }

  lemma PushPieceBytes(pieces: seq<Piece>, piece: Piece)
    ensures var longer := pieces + [piece];
            && Output(longer) == PushLine(Output(pieces), TextOf(piece))
            && Bytes(Output(longer)) <= Bytes(Output(pieces)) + 1 + Bytes(TextOf(piece))
  {
    hide Bytes, PushLine;
    assert (pieces + [piece])[..|pieces|] == pieces;
    PushBytes(Output(pieces), TextOf(piece));
  }

  lemma PushPieceBounded(pieces: seq<Piece>, piece: Piece)
    requires FilesBounded(pieces)
    requires OpenLines(pieces + [piece]) <= MAX_LINES_PER_FILE && OpenMarkers(pieces + [piece]) <= 1
    ensures FilesBounded(pieces + [piece])
  {
    hide OpenLines, OpenMarkers;
    var longer := pieces + [piece];
    forall k | 0 <= k <= |longer|
      ensures OpenLines(longer[..k]) <= MAX_LINES_PER_FILE && OpenMarkers(longer[..k]) <= 1
    {
      assert longer[..k] == if k == |longer| then longer else pieces[..k];
    }
  }

  lemma MarkerBytes()
    ensures Bytes(FILE_MARKER) == 27 && Bytes(END_MARKER) == 39
  {
    hide Bytes;
    AsciiBytes(FILE_MARKER);
    AsciiBytes(END_MARKER);
  }

  // What a step pushes, if anything.
  lemma StepPushes(p: Progress, n: nat, line: string) returns (piece: Piece)
    ensures Step(p, n, line).pieces == p.pieces || Step(p, n, line).pieces == p.pieces + [piece]
    ensures piece == RestOfFile || piece == Source(n, line)
  {
    hide IsHeader, IsFileStart, Bytes, Output;
    piece := if Step(p, n, line).pieces == p.pieces + [RestOfFile] then RestOfFile else Source(n, line);
  }

  lemma StepKeepsOrder(p: Progress, lines: seq<string>, n: nat)
    requires n < |lines| && InOrder(p.pieces, lines, n)
    ensures InOrder(Step(p, n, lines[n]).pieces, lines, n + 1)
  {
    hide Step;
    var piece := StepPushes(p, n, lines[n]);
  }

  lemma BoundedNow(pieces: seq<Piece>)
    requires FilesBounded(pieces)
    ensures OpenLines(pieces) <= MAX_LINES_PER_FILE && OpenMarkers(pieces) <= 1
  {
    assert pieces[..|pieces|] == pieces;
  }

  lemma PushCounts(pieces: seq<Piece>, piece: Piece)
    ensures var longer := pieces + [piece];
            var start := piece.Source? && IsFileStart(piece.line);
            && FileStarts(longer) == FileStarts(pieces) + (if start then 1 else 0)
            && OpenLines(longer) == (if start then 0
                                     else OpenLines(pieces) + if piece.Source? && !IsHeader(piece.line) then 1 else 0)
            && OpenMarkers(longer) == if start then 0 else OpenMarkers(pieces) + if piece.RestOfFile? then 1 else 0
  {
    assert (pieces + [piece])[..|pieces|] == pieces;
  }

  lemma StartIsHeader(line: string)
    ensures IsFileStart(line) ==> IsHeader(line)
  {
  }

  lemma StepKeepsCounted(p: Progress, n: nat, line: string)
    requires Counted(p) && !p.stopped
    ensures Counted(Step(p, n, line))
  {
    hide Bytes, Output, FilesBounded, FileStarts, OpenLines, OpenMarkers;
    BoundedNow(p.pieces);
    StartIsHeader(line);
    PushCounts(p.pieces, RestOfFile);
    PushCounts(p.pieces, Source(n, line));
    hide IsHeader, IsFileStart;
    var q := Step(p, n, line);
    if q.pieces != p.pieces {
      PushPieceBounded(p.pieces, q.pieces[|p.pieces|]);
    }
  }

  lemma StepKeepsBudgeted(p: Progress, n: nat, line: string)
    requires Budgeted(p) && !p.stopped
    ensures Budgeted(Step(p, n, line))
  {
    hide Bytes, Output, IsHeader, IsFileStart;
    MarkerBytes();
    PushPieceBytes(p.pieces, RestOfFile);
    PushPieceBytes(p.pieces, Source(n, line));
  }

  lemma StartIsFine(lines: seq<string>)
    ensures InOrder(START.pieces, lines, 0) && Counted(START) && Budgeted(START)
  {
    assert Bytes("") == 0;
  }

  lemma {:induction false} RunKeeps(lines: seq<string>, n: nat)
    requires n <= |lines|
    ensures InOrder(After(lines, n).pieces, lines, n)
    ensures Counted(After(lines, n)) && Budgeted(After(lines, n))
  {
    hide InOrder, Counted, Budgeted, Step;
    if n == 0 {
      StartIsFine(lines);
    } else {
      RunKeeps(lines, n - 1);
      var p := After(lines, n - 1);
      if p.stopped {
        OrderGrows(p.pieces, lines, n - 1);
      } else {
        StepKeepsOrder(p, lines, n - 1);
        StepKeepsCounted(p, n - 1, lines[n - 1]);
        StepKeepsBudgeted(p, n - 1, lines[n - 1]);
      }
    }
  }

  lemma OrderGrows(pieces: seq<Piece>, lines: seq<string>, n: nat)
    requires n < |lines| && InOrder(pieces, lines, n)
    ensures InOrder(pieces, lines, n + 1)
  {
  }

  /** For every input the result has at most 24,000 bytes and the two markers; it shows lines of the input in
      order, from at most 80 files, with at most 80 lines that are no headers in each. */
  lemma CompactIsBounded(lines: seq<string>)
    ensures Bytes(Compact(lines).0) <= MAX_BYTES + 28 + 40
    ensures var pieces := After(lines, |lines|).pieces;
            InOrder(pieces, lines, |lines|) && FilesBounded(pieces) && FileStarts(pieces) <= MAX_FILES
  {
    hide Bytes, Output, PushLine, InOrder, FilesBounded, After;
    RunKeeps(lines, |lines|);
    MarkerBytes();
    PushBytes(Output(After(lines, |lines|).pieces), END_MARKER);
  }

  // ---- the flag ----

  function AllSources(lines: seq<string>, n: nat): seq<Piece>
    requires n <= |lines|
  {
    seq(n, i requires 0 <= i < n => Source(i, lines[i]))
  }

  // A line is shown and the flag kept, or it is left out and the flag set.
  lemma StepFlag(p: Progress, n: nat, line: string)
    requires !p.includeFile ==> p.truncated
    ensures var q := Step(p, n, line);
            && ((q.stopped && !p.stopped) || !q.includeFile ==> q.truncated)
            && (|| (q.truncated == p.truncated && q.pieces == p.pieces + [Source(n, line)])
                || (q.truncated && (q.pieces == p.pieces || q.pieces == p.pieces + [RestOfFile])))
  {
    hide IsHeader, IsFileStart, Bytes, Output;
  }

  /** The flag is false exactly when every line of the input is shown. */
  ghost predicate FlagSays(p: Progress, lines: seq<string>, n: nat)
    requires n <= |lines|
  {
    && (!p.truncated <==> p.pieces == AllSources(lines, n))
    && (p.truncated ==> exists i: nat :: i < n && Source(i, lines[i]) !in p.pieces)
    && (forall i :: 0 <= i < |p.pieces| && p.pieces[i].Source? ==> p.pieces[i].index < n)
  }

  lemma {:induction false} TruncatedIff(lines: seq<string>, n: nat)
    requires n <= |lines|
    ensures FlagSays(After(lines, n), lines, n)
    ensures After(lines, n).stopped || !After(lines, n).includeFile ==> After(lines, n).truncated
  {
    if n > 0 {
      hide Step, FlagSays;
      TruncatedIff(lines, n - 1);
      var p := After(lines, n - 1);
      StepFlag(p, n - 1, lines[n - 1]);
      FlagStep(p, After(lines, n), lines, n - 1);
    } else {
      assert AllSources(lines, 0) == [];
    }
  }

  lemma FlagStep(p: Progress, q: Progress, lines: seq<string>, n: nat)
    requires n < |lines| && FlagSays(p, lines, n)
    requires || (q.truncated == p.truncated && q.pieces == p.pieces + [Source(n, lines[n])])
             || (q.truncated && (q.pieces == p.pieces || q.pieces == p.pieces + [RestOfFile]))
    ensures FlagSays(q, lines, n + 1)
  {
    var next := Source(n, lines[n]);
    var all := AllSources(lines, n + 1);
    assert all == AllSources(lines, n) + [next];
    if q.truncated {
      var i: nat := n;
      if p.truncated {
        i :| i < n && Source(i, lines[i]) !in p.pieces;
      }
      assert Source(i, lines[i]) !in q.pieces && all[i] == Source(i, lines[i]);
      assert Source(i, lines[i]) in all;
    }
  }

  function DropEmpty(lines: seq<string>): seq<string> {
    if lines != [] && lines[0] == "" then DropEmpty(lines[1..]) else lines
  }

  function Join(lines: seq<string>): string {
    if lines == [] then ""
    else if |lines| == 1 then lines[0]
    else Join(lines[..|lines| - 1]) + "\n" + lines[|lines| - 1]
  }

  lemma {:induction false} DropEmptyOfPrefix(lines: seq<string>)
    requires lines != []
    ensures var before := DropEmpty(lines[..|lines| - 1]);
            DropEmpty(lines) == if before == [] && lines[|lines| - 1] == "" then [] else before + [lines[|lines| - 1]]
  {
    if |lines| > 1 && lines[0] == "" {
      assert lines[..|lines| - 1][1..] == lines[1..][..|lines| - 2];
      DropEmptyOfPrefix(lines[1..]);
    } else if lines[0] != "" {
      assert lines == lines[..|lines| - 1] + [lines[|lines| - 1]];
    }
  }

  lemma {:induction false} OutputOfAll(lines: seq<string>, n: nat)
    requires n <= |lines|
    ensures var shown := DropEmpty(lines[..n]);
            Output(AllSources(lines, n)) == Join(shown) && (Join(shown) == "" <==> shown == [])
            && (shown != [] ==> shown[0] != "")
  {
    if n > 0 {
      OutputOfAll(lines, n - 1);
      assert AllSources(lines, n)[..n - 1] == AllSources(lines, n - 1);
      DropEmptyOfPrefix(lines[..n]);
      assert lines[..n][..n - 1] == lines[..n - 1];
      var before, shown := DropEmpty(lines[..n - 1]), DropEmpty(lines[..n]);
      if before != [] {
        assert shown[..|shown| - 1] == before;
      }
    }
  }

  /** When the flag is false, the result is the input's lines joined by newlines, without leading empty ones. */
  lemma UntruncatedIsTheInput(lines: seq<string>)
    requires !Compact(lines).1
    ensures Compact(lines).0 == Join(DropEmpty(lines))
    ensures lines != [] && lines[0] != "" ==> Compact(lines).0 == Join(lines)
  {
    TruncatedIff(lines, |lines|);
    OutputOfAll(lines, |lines|);
    assert lines[..|lines|] == lines;
  }
}
