/** The prompt that continues a session: pushes cut at a limit, and a rolling window of snippets. */
module ForkPrompt {
  import opened Text

  const MAX_PROMPT_CHARS: nat := 120_000
  const MAX_SNIPPETS: nat := 240
  const MAX_TRANSCRIPT_FILES: nat := 32

  const NO_TRANSCRIPT := "No readable recent transcript text was available. " +
                         "Continue using the project files and Codux-injected memory.\n"

  function Take(s: string, n: nat): string {
    if |s| <= n then s else s[..n]
  }

  method PushLimited(output: string, text: string) returns (longer: string)
    requires |output| <= MAX_PROMPT_CHARS
    ensures longer == Take(output + text, MAX_PROMPT_CHARS)
  {
    var remaining := MAX_PROMPT_CHARS - |output|;
    if remaining == 0 {
      assert Take(output + text, MAX_PROMPT_CHARS) == output;
      return output;
    }
    longer := output + Take(text, remaining);
  }

  // A push onto a cut text is a cut of the push onto the whole text.
  lemma TakeOfTake(whole: string, text: string)
    ensures Take(Take(whole, MAX_PROMPT_CHARS) + text, MAX_PROMPT_CHARS) == Take(whole + text, MAX_PROMPT_CHARS)
  {
  }

  function Excerpt(index: nat, snippet: string): string {
    "\n### Excerpt " + Decimal(index + 1) + "\n" + snippet + "\n"
  }

  /** The transcript section up to the first `n` snippets, without any limit. */
  function Transcript(snippets: seq<string>, n: nat): string
    requires n <= |snippets|
  {
    if n == 0 then "" else Transcript(snippets, n - 1) + Excerpt(n - 1, snippets[n - 1])
  }

  function CleanupNotes(omitted: nat): string {
    "\n## Cleanup Notes\n- Omitted unsafe or oversized transcript items: " + Decimal(omitted) + "\n"
  }

  /** The prompt with no limit: the sections before the transcript, the transcript, and the notes. */
  function Unlimited(sections: seq<string>, snippets: seq<string>, omitted: nat): string {
    Concat(sections)
    + (if snippets == [] then NO_TRANSCRIPT else Transcript(snippets, |snippets|))
    + CleanupNotes(omitted)
  }

  /** The prompt is full before snippet `n`. */
  predicate FullBefore(sections: seq<string>, snippets: seq<string>, n: nat)
    requires n <= |snippets|
  {
    |Concat(sections) + Transcript(snippets, n)| >= MAX_PROMPT_CHARS
  }

  method PushAll(parts: seq<string>) returns (text: string)
    ensures text == Take(Concat(parts), MAX_PROMPT_CHARS)
  {
    text := "";
    for i := 0 to |parts|
      invariant text == Take(Concat(parts[..i]), MAX_PROMPT_CHARS)
    {
      assert parts[..i + 1][..i] == parts[..i];
      TakeOfTake(Concat(parts[..i]), parts[i]);
      text := PushLimited(text, parts[i]);
    }
    assert parts[..|parts|] == parts;
  }

  /** The transcript after the sections `before`; a full prompt stops it and counts an omitted item. */
  method PushTranscript(text: string, snippets: seq<string>, omittedItems: nat, ghost before: string)
    returns (longer: string, omitted: nat)
    requires text == Take(before, MAX_PROMPT_CHARS) && snippets != []
    ensures longer == Take(before + Transcript(snippets, |snippets|), MAX_PROMPT_CHARS)
    ensures omitted == omittedItems +
              if |before + Transcript(snippets, |snippets| - 1)| >= MAX_PROMPT_CHARS then 1 else 0
  {
    hide Excerpt, Decimal;
    longer, omitted := text, omittedItems;
    var index := 0;
    assert before + "" == before;
    while index < |snippets|
      invariant 0 <= index <= |snippets| && omitted == omittedItems
      invariant longer == Take(before + Transcript(snippets, index), MAX_PROMPT_CHARS)
      invariant index > 0 ==> |before + Transcript(snippets, index - 1)| < MAX_PROMPT_CHARS
    {
      if |longer| >= MAX_PROMPT_CHARS {
        omitted := omitted + 1;
        LongerTranscript(snippets, index, |snippets| - 1);
        LongerTranscript(snippets, index, |snippets|);
        FullIsFinal(before, Transcript(snippets, index), Transcript(snippets, |snippets|));
        return;
      }
      longer := PushExcerpt(longer, index, snippets[index], before + Transcript(snippets, index));
      assert before + Transcript(snippets, index) + Excerpt(index, snippets[index])
             == before + Transcript(snippets, index + 1);
      index := index + 1;
    }
  }

  lemma FullIsFinal(before: string, part: string, whole: string)
    requires part <= whole && |before + part| >= MAX_PROMPT_CHARS
    ensures Take(before + part, MAX_PROMPT_CHARS) == Take(before + whole, MAX_PROMPT_CHARS)
  {
    assert before + whole == before + part + whole[|part|..];
  }

  // The three pushes of one excerpt.
  method PushExcerpt(text: string, index: nat, snippet: string, ghost whole: string) returns (longer: string)
    requires text == Take(whole, MAX_PROMPT_CHARS)
    ensures longer == Take(whole + Excerpt(index, snippet), MAX_PROMPT_CHARS)
  {
    hide Take, Decimal;
    var heading := "\n### Excerpt " + Decimal(index + 1) + "\n";
    TakeIsShort(whole);
    TakeOfTake(whole, heading);
    longer := PushLimited(text, heading);
    TakeIsShort(whole + heading);
    TakeOfTake(whole + heading, snippet);
    longer := PushLimited(longer, snippet);
    TakeIsShort(whole + heading + snippet);
    TakeOfTake(whole + heading + snippet, "\n");
    longer := PushLimited(longer, "\n");
    assert whole + Excerpt(index, snippet) == whole + heading + snippet + "\n";
  }

  lemma TakeIsShort(s: string)
    ensures |Take(s, MAX_PROMPT_CHARS)| <= MAX_PROMPT_CHARS
  {
  }

  /** The prompt is exactly the first 120,000 characters of the unlimited one, although a full prompt counts
      another omitted item for the notes; it does so exactly when it is full before the last snippet. */
  method PromptText(sections: seq<string>, snippets: seq<string>, omittedItems: nat)
    returns (text: string, omitted: nat)
    ensures text == Take(Unlimited(sections, snippets, omittedItems), MAX_PROMPT_CHARS)
    ensures omitted == omittedItems +
              if snippets != [] && FullBefore(sections, snippets, |snippets| - 1) then 1 else 0
  {
    hide Take, CleanupNotes, Concat, Transcript;
    text := PushAll(sections);
    omitted := omittedItems;
    ghost var before := Concat(sections);
    ghost var whole := before + if snippets == [] then NO_TRANSCRIPT else Transcript(snippets, |snippets|);
    TakeIsShort(before);
    if snippets == [] {
      TakeOfTake(before, NO_TRANSCRIPT);
      text := PushLimited(text, NO_TRANSCRIPT);
    } else {
      text, omitted := PushTranscript(text, snippets, omittedItems, before);
      if omitted != omittedItems {
        LongerTranscript(snippets, |snippets| - 1, |snippets|);
      }
    }
    NotesOfFull(whole, omittedItems, omitted);
    TakeIsShort(whole);
    TakeOfTake(whole, CleanupNotes(omitted));
    text := PushLimited(text, CleanupNotes(omitted));
  }

  lemma {:induction false} LongerTranscript(snippets: seq<string>, m: nat, n: nat)
    requires m <= n <= |snippets|
    ensures Transcript(snippets, m) <= Transcript(snippets, n)
    decreases n
  {
    if m < n {
      LongerTranscript(snippets, m, n - 1);
    }
  }

  // Once the prompt is full, the count in the notes does not show.
  lemma NotesOfFull(whole: string, a: nat, b: nat)
    requires a == b || |whole| >= MAX_PROMPT_CHARS
    ensures Take(whole + CleanupNotes(a), MAX_PROMPT_CHARS) == Take(whole + CleanupNotes(b), MAX_PROMPT_CHARS)
  {
    if |whole| >= MAX_PROMPT_CHARS {
      assert (whole + CleanupNotes(a))[..MAX_PROMPT_CHARS] == whole[..MAX_PROMPT_CHARS];
      assert (whole + CleanupNotes(b))[..MAX_PROMPT_CHARS] == whole[..MAX_PROMPT_CHARS];
    }
  }

  // ---- snippets ----

  function LastSnippets(snippets: seq<string>, max: nat): seq<string> {
    if |snippets| <= max then snippets else snippets[|snippets| - max..]
  }

  lemma LastOfLast(a: seq<string>, b: seq<string>, max: nat)
    ensures LastSnippets(LastSnippets(a, max) + LastSnippets(b, max), max) == LastSnippets(a + b, max)
  {
    var cutA, cutB := LastSnippets(a, max), LastSnippets(b, max);
    var skipped := |a| - |cutA|;
    assert a == a[..skipped] + cutA;
    if |b| >= max {
      assert LastSnippets(a + b, max) == cutB;
    } else {
      assert a + b == a[..skipped] + (cutA + b);
    }
  }

  /** A transcript file: whether it is there, and the snippets its text yields. */
  datatype File = File(path: string, isFile: bool, snippets: seq<string>)

  /** The first 32 distinct files that are there, in their order. */
  function Selected(files: seq<File>, n: nat): seq<File>
    requires n <= |files|
  {
    if n == 0 then []
    else
      var before, file := Selected(files, n - 1), files[n - 1];
      if |before| < MAX_TRANSCRIPT_FILES && file.isFile && (forall f :: f in before ==> f.path != file.path)
      then before + [file] else before
  }

  /** All snippets of the files, the last file first. */
  function Backwards(files: seq<File>): seq<string> {
    if files == [] then [] else Backwards(files[1..]) + files[0].snippets
  }

  lemma {:induction false} FullStays(files: seq<File>, m: nat, n: nat)
    requires m <= n <= |files| && |Selected(files, m)| >= MAX_TRANSCRIPT_FILES
    ensures Selected(files, n) == Selected(files, m)
    decreases n
  {
    if m < n {
      FullStays(files, m, n - 1);
    }
  }

  method SelectFiles(files: seq<File>) returns (paths: seq<File>)
    ensures paths == Selected(files, |files|)
  {
    paths := [];
    var seen: set<string> := {};
    for i := 0 to |files|
      invariant paths == Selected(files, i) && |paths| < MAX_TRANSCRIPT_FILES
      invariant seen == set f | f in paths :: f.path
    {
      var file := files[i];
      if !file.isFile || file.path in seen {
        continue;
      }
      seen := seen + {file.path};
      paths := paths + [file];
      if |paths| >= MAX_TRANSCRIPT_FILES {
        FullStays(files, i + 1, |files|);
        return;
      }
    }
  }

  // A file without snippets adds nothing; any other adds its own to the window.
  lemma WindowStep(paths: seq<File>, i: nat, more: seq<string>)
    requires i < |paths| && more == LastSnippets(paths[i].snippets, MAX_SNIPPETS)
    ensures var before := LastSnippets(Backwards(paths[i + 1..]), MAX_SNIPPETS);
            LastSnippets(Backwards(paths[i..]), MAX_SNIPPETS) ==
            if more == [] then before else LastSnippets(before + more, MAX_SNIPPETS)
  {
    var rest := Backwards(paths[i + 1..]);
    assert paths[i..][1..] == paths[i + 1..];
    assert Backwards(paths[i..]) == rest + paths[i].snippets;
    LastOfLast(rest, paths[i].snippets, MAX_SNIPPETS);
    if more == [] {
      assert rest + [] == rest;
    }
  }

  /** The rolling truncation keeps the last 240 of all snippets, in processing order: the last file first. */
  method CollectSnippets(files: seq<File>) returns (snippets: seq<string>)
    ensures snippets == LastSnippets(Backwards(Selected(files, |files|)), MAX_SNIPPETS)
  {
    var paths := SelectFiles(files);
    snippets := [];
    var i := |paths|;
    assert paths[i..] == [];
    assert Backwards([]) == [] && LastSnippets([], MAX_SNIPPETS) == [];
    hide Selected, Backwards, LastSnippets;
    while i > 0
      invariant 0 <= i <= |paths| && snippets == LastSnippets(Backwards(paths[i..]), MAX_SNIPPETS)
    {
      i := i - 1;
      var more := LastSnippets(paths[i].snippets, MAX_SNIPPETS);
      WindowStep(paths, i, more);
      if more == [] {
        continue;
      }
      snippets := LastSnippets(snippets + more, MAX_SNIPPETS);
    }
    assert paths[0..] == paths;
  }

  // ---- what the cuts are ----

  /** The prompt has at most 120,000 characters, and more are left out exactly when there are more. */
  lemma TakeIs(s: string)
    ensures Take(s, MAX_PROMPT_CHARS) <= s
    ensures |Take(s, MAX_PROMPT_CHARS)| == if |s| < 120_000 then |s| else 120_000
  {
  }

  lemma LastSnippetsAre(snippets: seq<string>)
    ensures var last := LastSnippets(snippets, MAX_SNIPPETS);
            |last| == (if |snippets| < 240 then |snippets| else 240) && snippets[|snippets| - |last|..] == last
  {
  }

  /** The selected files are there, differ in their paths and keep the given order; there are at most 32. */
  lemma {:induction false} SelectedAre(files: seq<File>, n: nat)
    requires n <= |files|
    ensures var selected := Selected(files, n);
            && |selected| <= 32
            && (forall i :: 0 <= i < |selected| ==> selected[i].isFile && selected[i] in files[..n])
            && (forall i, j :: 0 <= i < j < |selected| ==> selected[i].path != selected[j].path)
    ensures n > 0 ==> Selected(files, n - 1) <= Selected(files, n)
  {
    if n > 0 {
      SelectedAre(files, n - 1);
      assert files[..n] == files[..n - 1] + [files[n - 1]];
    }
  }

  predicate HasPath(files: seq<File>, path: string) {
    exists i :: 0 <= i < |files| && files[i].path == path
  }

  /** They are the first such files: one that is there and not selected repeats the path of a selected one, or comes
      after 32 of them. */
  lemma {:induction false} OthersRepeat(files: seq<File>, n: nat, i: nat)
    requires i < n <= |files| && files[i].isFile
    ensures HasPath(Selected(files, n), files[i].path) || |Selected(files, n)| == 32
    decreases n
  {
    var before, now := Selected(files, n - 1), Selected(files, n);
    SelectedAre(files, n);
    if i < n - 1 {
      OthersRepeat(files, n - 1, i);
      assert forall j :: 0 <= j < |before| ==> now[j] == before[j];
    } else if now != before {
      assert now[|before|] == files[i];
    } else if |before| < 32 {
      var f :| f in before && f.path == files[i].path;
    }
  }

  /** The snippets of a later file come before those of an earlier one, and within a file they keep their order. */
  lemma {:induction false} BackwardsOfConcat(a: seq<File>, b: seq<File>)
    ensures Backwards(a + b) == Backwards(b) + Backwards(a)
    ensures |b| == 1 ==> Backwards(b) == b[0].snippets
  {
    if |b| == 1 {
      assert b[1..] == [];
    }
    if a == [] {
      assert a + b == b;
    } else {
      assert (a + b)[1..] == a[1..] + b;
      BackwardsOfConcat(a[1..], b);
    }
  }

  /** The transcript section of a prompt, excerpt by excerpt. */
  function Excerpts(snippets: seq<string>): seq<string> {
    seq(|snippets|, i requires 0 <= i < |snippets| =>
      "\n### Excerpt " + Decimal(i + 1) + "\n" + snippets[i] + "\n")
  }

  lemma {:induction false} TranscriptIs(snippets: seq<string>, n: nat)
    requires n <= |snippets|
    ensures Transcript(snippets, n) == Concat(Excerpts(snippets)[..n])
  {
    hide Decimal;
    if n > 0 {
      TranscriptIs(snippets, n - 1);
      assert Excerpts(snippets)[..n][..n - 1] == Excerpts(snippets)[..n - 1];
    }
  }

  /** The unlimited prompt: the sections, the numbered excerpts or a remark that there are none, and the notes. */
  lemma UnlimitedIs(sections: seq<string>, snippets: seq<string>, omitted: nat)
    ensures var notes :=
              "\n## Cleanup Notes\n- Omitted unsafe or oversized transcript items: " + Decimal(omitted) + "\n";
            Unlimited(sections, snippets, omitted) ==
            Concat(sections) + (if |snippets| == 0 then NO_TRANSCRIPT else Concat(Excerpts(snippets))) + notes
  {
    hide Decimal, Excerpts;
    TranscriptIs(snippets, |snippets|);
    assert Excerpts(snippets)[..|snippets|] == Excerpts(snippets) by {
      ExcerptsLength(snippets);
    }
  }

  lemma ExcerptsLength(snippets: seq<string>)
    ensures |Excerpts(snippets)| == |snippets|
  {
  }
}
