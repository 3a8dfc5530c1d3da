/** Reading `git worktree list --porcelain`, and ids for the worktrees read. */
module WorktreeScan {
  import opened Wrappers
  import opened Text

  datatype Entry = Entry(path: string, branch: string, isDefault: bool)

  /** Every leading `prefix` removed. */
  function TrimPrefixes(s: string, prefix: string): string
    requires prefix != ""
    decreases |s|
  {
    if StartsWith(s, prefix) then TrimPrefixes(s[|prefix|..], prefix) else s
  }

  function Flush(entries: seq<Entry>, path: Option<string>, branch: string): seq<Entry> {
    match path
    case None => entries
    case Some(p) => entries + [Entry(p, branch, entries == [])]
  }

  function ScanFrom(lines: seq<string>, path: Option<string>, branch: string, entries: seq<Entry>): seq<Entry> {
    if lines == [] then Flush(entries, path, branch)
    else
      var line, rest := lines[0], lines[1..];
      if StartsWith(line, "worktree ") then ScanFrom(rest, Some(line[9..]), "", entries)
      else if StartsWith(line, "branch ") then ScanFrom(rest, path, TrimPrefixes(line[7..], "refs/heads/"), entries)
      else if Trim(line) == "" then ScanFrom(rest, None, branch, Flush(entries, path, branch))
      else ScanFrom(rest, path, branch, entries)
  }

  function Scan(text: string): seq<Entry> {
    ScanFrom(Lines(text), None, "", [])
  }

  method ScanWorktrees(text: string) returns (worktrees: seq<Entry>)
    ensures worktrees == Scan(text)
  {
    worktrees := [];
    var path: Option<string>, branch := None, "";
    var lines := Lines(text);
    assert lines[0..] == lines;
    for i := 0 to |lines|
      invariant ScanFrom(lines[i..], path, branch, worktrees) == Scan(text)
    {
      var line := lines[i];
      assert lines[i..][1..] == lines[i + 1..];
      if StartsWith(line, "worktree ") {
        path, branch := Some(line[9..]), "";
      } else if StartsWith(line, "branch ") {
        branch := TrimPrefixes(line[7..], "refs/heads/");
      } else if Trim(line) == "" {
        if path.Some? {
          worktrees := worktrees + [Entry(path.value, branch, worktrees == [])];
        }
        path := None;
      }
    }
    if path.Some? {
      worktrees := worktrees + [Entry(path.value, branch, worktrees == [])];
    }
  }

  // ---- printing ----

  /** A worktree as git lists it: its path, further attributes (HEAD, detached, locked), and its branch. */
  datatype Listed = Listed(path: string, attributes: seq<string>, branch: Option<string>)

  predicate IsAttribute(line: string) {
    !StartsWith(line, "worktree ") && !StartsWith(line, "branch ") && Trim(line) != ""
  }

  predicate OneLine(s: string) {
    '\n' !in s && StripCarriageReturn(s) == s
  }

  predicate Printable(w: Listed) {
    && OneLine(w.path) && (w.branch.Some? ==> OneLine(w.branch.value))
    && forall i :: 0 <= i < |w.attributes| ==> OneLine(w.attributes[i]) && IsAttribute(w.attributes[i])
  }

  function BranchLines(branch: Option<string>): seq<string> {
    match branch
    case None => []
    case Some(b) => ["branch refs/heads/" + b]
  }

  function Block(w: Listed): seq<string> {
    ["worktree " + w.path] + (w.attributes + (BranchLines(w.branch) + [""]))
  }

  function PrintAll(ws: seq<Listed>): seq<string> {
    if ws == [] then [] else Block(ws[0]) + PrintAll(ws[1..])
  }

  /** What the scan reads of a branch: every leading refs/heads/ is gone. */
  function ReadBranch(branch: Option<string>): string {
    match branch
    case None => ""
    case Some(b) => TrimPrefixes(b, "refs/heads/")
  }

  function ReadAll(ws: seq<Listed>, entries: seq<Entry>): seq<Entry> {
    if ws == [] then entries
    else ReadAll(ws[1..], entries + [Entry(ws[0].path, ReadBranch(ws[0].branch), entries == [])])
  }

  function EntryOf(w: Listed, isDefault: bool): Entry {
    Entry(w.path, if w.branch.Some? then w.branch.value else "", isDefault)
  }

  /** What a faithful reading gives. */
  function EntriesOf(ws: seq<Listed>): seq<Entry> {
    seq(|ws|, i requires 0 <= i < |ws| => EntryOf(ws[i], i == 0))
  }

  lemma {:induction false} AttributesAreSkipped(attributes: seq<string>, rest: seq<string>, path: Option<string>,
                                                branch: string, entries: seq<Entry>)
    requires forall i :: 0 <= i < |attributes| ==> IsAttribute(attributes[i])
    ensures ScanFrom(attributes + rest, path, branch, entries) == ScanFrom(rest, path, branch, entries)
    decreases |attributes|
  {
    if attributes == [] {
      assert attributes + rest == rest;
    } else {
      assert (attributes + rest)[1..] == attributes[1..] + rest;
      AttributesAreSkipped(attributes[1..], rest, path, branch, entries);
    }
  }

  lemma BranchIsRead(branch: Option<string>, rest: seq<string>, path: string, entries: seq<Entry>)
    ensures ScanFrom(BranchLines(branch) + ([""] + rest), Some(path), "", entries) ==
            ScanFrom(rest, None, ReadBranch(branch), entries + [Entry(path, ReadBranch(branch), entries == [])])
  {
    var tail := [""] + rest;
    assert tail[1..] == rest && Trim("") == "";
    match branch
    case None =>
      assert BranchLines(branch) + tail == tail;
    case Some(b) =>
      var line := "branch refs/heads/" + b;
      assert (BranchLines(branch) + tail)[1..] == tail;
      assert line == "branch " + ("refs/heads/" + b) && line[7..] == "refs/heads/" + b;
      assert ("refs/heads/" + b)[11..] == b;
      assert !StartsWith(line, "worktree ") by { assert line[0] == 'b'; }
  }

  lemma {:induction false} BlocksAreRead(ws: seq<Listed>, branch: string, entries: seq<Entry>)
    requires forall i :: 0 <= i < |ws| ==> Printable(ws[i])
    ensures ScanFrom(PrintAll(ws), None, branch, entries) == ReadAll(ws, entries)
    decreases |ws|
  {
    hide Trim, TrimPrefixes;
    if ws != [] {
      var w, rest := ws[0], PrintAll(ws[1..]);
      assert Printable(w);
      var lines := PrintAll(ws);
      var tail := w.attributes + (BranchLines(w.branch) + ([""] + rest));
      assert lines == ["worktree " + w.path] + tail;
      assert lines[1..] == tail && ("worktree " + w.path)[9..] == w.path;
      AttributesAreSkipped(w.attributes, BranchLines(w.branch) + ([""] + rest), Some(w.path), "", entries);
      BranchIsRead(w.branch, rest, w.path, entries);
      BlocksAreRead(ws[1..], ReadBranch(w.branch), entries + [Entry(w.path, ReadBranch(w.branch), entries == [])]);
    }
  }

  lemma {:induction false} ReadAllIs(ws: seq<Listed>, entries: seq<Entry>)
    ensures var all := ReadAll(ws, entries);
            && |all| == |entries| + |ws| && entries <= all
            && forall i :: 0 <= i < |ws| ==>
                 all[|entries| + i] == Entry(ws[i].path, ReadBranch(ws[i].branch), |entries| + i == 0)
    decreases |ws|
  {
    if ws != [] {
      var next := entries + [Entry(ws[0].path, ReadBranch(ws[0].branch), entries == [])];
      ReadAllIs(ws[1..], next);
      var all := ReadAll(ws, entries);
      assert all[|entries|] == next[|entries|];
      forall i | 0 < i < |ws|
        ensures all[|entries| + i] == Entry(ws[i].path, ReadBranch(ws[i].branch), |entries| + i == 0)
      {
        assert ws[1..][i - 1] == ws[i];
        assert all[|next| + (i - 1)] == Entry(ws[i].path, ReadBranch(ws[i].branch), false);
      }
    }
  }

  lemma {:induction false} TrimPrefixesShorter(s: string, prefix: string)
    requires prefix != ""
    ensures |TrimPrefixes(s, prefix)| <= |s|
    ensures TrimPrefixes(s, prefix) == s <==> !StartsWith(s, prefix)
    decreases |s|
  {
    if StartsWith(s, prefix) {
      TrimPrefixesShorter(s[|prefix|..], prefix);
    }
  }

  predicate HasPrefixedName(w: Listed) {
    w.branch.Some? && StartsWith(w.branch.value, "refs/heads/")
  }

  lemma ReadFaithfullyIff(w: Listed, isDefault: bool)
    ensures Entry(w.path, ReadBranch(w.branch), isDefault) == EntryOf(w, isDefault) <==>
              !HasPrefixedName(w)
  {
    if w.branch.Some? {
      TrimPrefixesShorter(w.branch.value, "refs/heads/");
    }
  }

  /** Scanning the print of a worktree list gives the list back, the first marked default, exactly when no
      branch's own name starts with "refs/heads/". */
  lemma ScanRoundTripIff(ws: seq<Listed>)
    requires forall i :: 0 <= i < |ws| ==> Printable(ws[i])
    ensures ScanFrom(PrintAll(ws), None, "", []) == EntriesOf(ws) <==>
            forall i :: 0 <= i < |ws| ==> !HasPrefixedName(ws[i])
  {
    hide ScanFrom, PrintAll, ReadAll, TrimPrefixes, Printable, ReadBranch, EntryOf, HasPrefixedName;
    BlocksAreRead(ws, "", []);
    ReadAllIs(ws, []);
    var all, expected := ReadAll(ws, []), EntriesOf(ws);
    forall i | 0 <= i < |ws|
      ensures all[i] == expected[i] <==> !HasPrefixedName(ws[i])
    {
      assert all[0 + i] == Entry(ws[i].path, ReadBranch(ws[i].branch), i == 0);
      ReadFaithfullyIff(ws[i], i == 0);
    }
    assert all == expected <==> forall i :: 0 <= i < |ws| ==> all[i] == expected[i];
  }

  lemma {:induction false} PrintIsOneLineEach(ws: seq<Listed>)
    requires forall i :: 0 <= i < |ws| ==> Printable(ws[i])
    ensures forall i :: 0 <= i < |PrintAll(ws)| ==> OneLine(PrintAll(ws)[i])
  {
    if ws != [] {
      PrintIsOneLineEach(ws[1..]);
      BlockIsOneLineEach(ws[0]);
    }
  }

  lemma WithPrefix(prefix: string, s: string)
    requires OneLine(s) && OneLine(prefix)
    ensures OneLine(prefix + s)
  {
    if s == "" {
      assert prefix + s == prefix;
    }
  }

  lemma BlockIsOneLineEach(w: Listed)
    requires Printable(w)
    ensures forall i :: 0 <= i < |Block(w)| ==> OneLine(Block(w)[i])
  {
    WithPrefix("worktree ", w.path);
    if w.branch.Some? {
      WithPrefix("branch refs/heads/", w.branch.value);
    }
  }

  /** The same on the text git prints. */
  lemma ScanOfText(ws: seq<Listed>)
    requires forall i :: 0 <= i < |ws| ==> Printable(ws[i])
    ensures Scan(Unlines(PrintAll(ws))) == ScanFrom(PrintAll(ws), None, "", [])
  {
    hide PrintAll;
    PrintIsOneLineEach(ws);
    LinesOfUnlines(PrintAll(ws));
    assert StripAll(PrintAll(ws)) == PrintAll(ws);
  }

  // ---- ids ----

  /** How a project names its worktrees: `key` identifies paths, `normalize` and `uuid` make ids. */
  datatype Naming = Naming(project: string, root: string, key: string -> Option<string>,
                           normalize: string -> string, uuid: string -> string)

  predicate PathsEqual(n: Naming, a: string, b: string) {
    n.key(a).Some? && n.key(a) == n.key(b)
  }

  function EntryId(n: Naming, e: Entry): string {
    if e.isDefault then n.project else n.uuid(n.normalize(e.path))
  }

  /** The first entry with an equal path, or the length. */
  function IndexOfPath(n: Naming, entries: seq<Entry>, path: string): (i: nat)
    ensures i <= |entries| && (i < |entries| ==> PathsEqual(n, entries[i].path, path))
    ensures forall j :: 0 <= j < i ==> !PathsEqual(n, entries[j].path, path)
  {
    if entries == [] || PathsEqual(n, entries[0].path, path) then 0 else 1 + IndexOfPath(n, entries[1..], path)
  }

  function IndexOfId(n: Naming, entries: seq<Entry>, id: string): (i: nat)
    ensures i <= |entries| && (i < |entries| ==> EntryId(n, entries[i]) == id)
    ensures forall j :: 0 <= j < i ==> EntryId(n, entries[j]) != id
  {
    if entries == [] || EntryId(n, entries[0]) == id then 0 else 1 + IndexOfId(n, entries[1..], id)
  }

  function WorktreeIdForPath(n: Naming, entries: seq<Entry>, path: string): string {
    if PathsEqual(n, n.root, path) then n.project
    else
      var i := IndexOfPath(n, entries, path);
      if i < |entries| then EntryId(n, entries[i]) else n.uuid(n.normalize(path))
  }

  function WorktreeForId(n: Naming, entries: seq<Entry>, id: string): Option<string> {
    if id == n.project then Some(n.root)
    else
      var i := IndexOfId(n, entries, id);
      if i < |entries| then Some(entries[i].path) else None
  }

  /** Looking up the id of any listed worktree's path, in whatever spelling, leads back to that worktree exactly
      when it is not the default one or is the one the project was opened at, provided ids tell listed paths apart
      and none is the project id. */
  lemma LookupUndoesNamingIff(n: Naming, entries: seq<Entry>, i: nat, path: string)
    requires i < |entries| && PathsEqual(n, entries[i].path, path)
    requires forall j, k :: 0 <= j < k < |entries| ==>
               !PathsEqual(n, entries[j].path, entries[k].path)
               && n.uuid(n.normalize(entries[j].path)) != n.uuid(n.normalize(entries[k].path))
    requires forall j :: 0 <= j < |entries| ==> n.uuid(n.normalize(entries[j].path)) != n.project
    ensures var found := WorktreeForId(n, entries, WorktreeIdForPath(n, entries, path));
            && found.Some?
            && (PathsEqual(n, found.value, entries[i].path) <==>
                  !entries[i].isDefault || PathsEqual(n, n.root, entries[i].path))
            && (found.value == n.root || found.value == entries[i].path)
  {
    if !PathsEqual(n, n.root, path) {
      var j := IndexOfPath(n, entries, path);
      assert j == i;
      if !entries[i].isDefault {
        var id := EntryId(n, entries[i]);
        var k := IndexOfId(n, entries, id);
        assert k <= i && id != n.project;
      }
    }
  }

  /** The id of a path: the project's for the path the project was opened at and for the default worktree, the
      worktree's own for another listed one, and the path's own for one that is not listed. */
  lemma IdsAre(n: Naming, entries: seq<Entry>, path: string)
    ensures PathsEqual(n, n.root, path) ==> WorktreeIdForPath(n, entries, path) == n.project
    ensures !PathsEqual(n, n.root, path) ==>
              var i := IndexOfPath(n, entries, path);
              WorktreeIdForPath(n, entries, path) ==
              if i == |entries| then n.uuid(n.normalize(path))
              else if entries[i].isDefault then n.project
              else n.uuid(n.normalize(entries[i].path))
    ensures n.key(path) == None ==> !PathsEqual(n, n.root, path) && IndexOfPath(n, entries, path) == |entries|
  {
  }
}
