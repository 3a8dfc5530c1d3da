/** The flat status list shown one directory level at a time, and drilled into marker by marker. */
module StatusTree {
  import opened Wrappers
  import opened Text

  datatype FileStatus = FileStatus(path: string, indexStatus: string, worktreeStatus: string)

  predicate IsUntracked(file: FileStatus) {
    file.worktreeStatus == "?" && (file.indexStatus == "?" || Trim(file.indexStatus) == "")
  }

  function TrimEndSlash(s: string): string {
    if s != "" && s[|s| - 1] == '/' then TrimEndSlash(s[..|s| - 1]) else s
  }

  function TrimStartSlash(s: string): string {
    if s != "" && s[0] == '/' then TrimStartSlash(s[1..]) else s
  }

  function TrimSlashes(s: string): string {
    TrimEndSlash(TrimStartSlash(s))
  }

  function RelativePath(base: string, path: string): Option<string> {
    if base == "" then Some(path)
    else if StartsWith(path, base) && StartsWith(path[|base|..], "/") then Some(path[|base| + 1..])
    else None
  }

  function JoinPath(base: string, name: string): string {
    if base == "" then name else base + "/" + name
  }

  function Marker(path: string, file: FileStatus): FileStatus {
    if IsUntracked(file) then FileStatus(path, "?", "?")
    else FileStatus(path, file.indexStatus, file.worktreeStatus)
  }

  /** The key under which a marker is stored. */
  function MarkerKey(m: FileStatus): string {
    m.path + "\0" + m.indexStatus + "\0" + m.worktreeStatus
  }

  datatype Placement = Outside | Direct | Below(marker: FileStatus)

  /** What listing the directory `base` makes of one file. */
  function Place(base: string, file: FileStatus): Placement {
    var relative := RelativePath(base, file.path);
    if relative == None then Outside
    else
      var rest := TrimEndSlash(relative.value);
      var slash := IndexOf(rest, '/');
      if rest == "" then Outside
      else if slash < |rest| then
        Below(Marker(TrimEndSlash(JoinPath(base, rest[..slash])) + "/", file))
      else Direct
  }

  function DirectEntries(files: seq<FileStatus>, base: string): seq<FileStatus> {
    if files == [] then []
    else
      var before, last := DirectEntries(files[..|files| - 1], base), files[|files| - 1];
      if Place(base, last).Direct? then before + [last] else before
  }

  /** The markers of a listing, by key; the first of a key stays. */
  function Markers(files: seq<FileStatus>, base: string): map<string, FileStatus> {
    if files == [] then map[]
    else
      var before := Markers(files[..|files| - 1], base);
      var place := Place(base, files[|files| - 1]);
      if place.Below? && MarkerKey(place.marker) !in before then before[MarkerKey(place.marker) := place.marker]
      else before
  }

  method CollapsePathStatusFiles(files: seq<FileStatus>, directoryPath: string)
    returns (collapsed: seq<FileStatus>, directoryMarkers: map<string, FileStatus>)
    ensures collapsed == DirectEntries(files, TrimSlashes(directoryPath))
    ensures directoryMarkers == Markers(files, TrimSlashes(directoryPath))
  {
    var basePath := TrimSlashes(directoryPath);
    collapsed, directoryMarkers := [], map[];
    for i := 0 to |files|
      invariant collapsed == DirectEntries(files[..i], basePath)
      invariant directoryMarkers == Markers(files[..i], basePath)
    {
      var file := files[i];
      assert files[..i + 1][..i] == files[..i];
      var relative := RelativePath(basePath, file.path);
      if relative == None {
        continue;
      }
      var rest := TrimEndSlash(relative.value);
      if rest == "" {
        continue;
      }
      var slash := IndexOf(rest, '/');
      if slash < |rest| {
        var path := JoinPath(basePath, rest[..slash]);
        var marker := Marker(TrimEndSlash(path) + "/", file);
        var key := MarkerKey(marker);
        if key !in directoryMarkers {
          directoryMarkers := directoryMarkers[key := marker];
        }
      } else {
        collapsed := collapsed + [file];
      }
    }
    assert files[..|files|] == files;
  }

  /** A marker carries the file's statuses, or two question marks for an untracked file: one whose work tree status is
      "?" and whose index status is "?" or blank. */
  lemma MarkerIs(path: string, file: FileStatus)
    ensures var m := Marker(path, file);
            && m.path == path
            && (if file.worktreeStatus == "?" && (file.indexStatus == "?" || Trim(file.indexStatus) == "") then
                  m.indexStatus == "?" && m.worktreeStatus == "?"
                else m.indexStatus == file.indexStatus && m.worktreeStatus == file.worktreeStatus)
  {
  }

  // ---- paths as components ----

  predicate IsComponent(name: string) {
    name != "" && '/' !in name
  }

  predicate AreComponents(names: seq<string>) {
    forall i :: 0 <= i < |names| ==> IsComponent(names[i])
  }

  /** Every component followed by a slash. */
  function Slashed(names: seq<string>): string {
    if names == [] then "" else names[0] + "/" + Slashed(names[1..])
  }

  /** The components joined by slashes. */
  function Path(names: seq<string>): string {
    if names == [] then "" else Slashed(names)[..|Slashed(names)| - 1]
  }

  lemma {:induction false} SlashedShape(names: seq<string>)
    requires AreComponents(names) && names != []
    ensures var s := Slashed(names);
            |s| >= 2 && s[0] != '/' && s[|s| - 1] == '/' && s[|s| - 2] != '/'
            && s[..|s| - 1] + "/" == s
  {
    hide Slashed;
    var first, rest := names[0], names[1..];
    SlashedFirst(names);
    EndsInSlash(first);
    if rest != [] {
      SlashedShape(rest);
      LongerTail(first + "/", Slashed(rest));
    }
  }

  lemma SlashedFirst(names: seq<string>)
    requires names != []
    ensures Slashed(names) == names[0] + "/" + Slashed(names[1..])
    ensures names[1..] == [] ==> Slashed(names) == names[0] + "/"
  {
  }

  lemma EndsInSlash(name: string)
    requires IsComponent(name)
    ensures var s := name + "/";
            |s| >= 2 && s[0] == name[0] != '/' && s[|s| - 1] == '/' && s[|s| - 2] != '/' && s[..|s| - 1] == name
  {
    assert name[|name| - 1] in name && name[0] in name;
  }

  lemma LongerTail(a: string, b: string)
    requires |a| >= 1 && |b| >= 2
    ensures var s := a + b;
            s[0] == a[0] && s[|s| - 1] == b[|b| - 1] && s[|s| - 2] == b[|b| - 2] && s[..|s| - 1] == a + b[..|b| - 1]
  {
  }

  lemma {:induction false} SlashedSplits(a: seq<string>, b: seq<string>)
    ensures Slashed(a + b) == Slashed(a) + Slashed(b)
  {
    if a == [] {
      assert a + b == b;
    } else {
      assert (a + b)[1..] == a[1..] + b;
      SlashedSplits(a[1..], b);
    }
  }

  lemma CancelFirst(x: string, restX: string, y: string, restY: string)
    requires '/' !in x && '/' !in y
    ensures x + "/" + restX <= y + "/" + restY <==> x == y && restX <= restY
  {
    var a, b := x + "/" + restX, y + "/" + restY;
    if a <= b {
      var more := b[|a|..];
      assert b == a + more == x + ['/'] + (restX + more);
      FirstSlashSplits(x, restX + more, y, restY);
    }
    if x == y && restX <= restY {
      assert b == a + restY[|restX|..];
    }
  }

  lemma FirstSlashSplits(x: string, restX: string, y: string, restY: string)
    requires '/' !in x && '/' !in y && x + ['/'] + restX == y + ['/'] + restY
    ensures x == y && restX == restY
  {
    hide IndexOf;
    var b := x + ['/'] + restX;
    IndexOfFirst(x, '/', restX);
    IndexOfFirst(y, '/', restY);
    assert x == b[..|x|] == y;
    assert restX == b[|x| + 1..] == restY;
  }

  /** A directory's path is a prefix of a file's exactly when its components are. */
  lemma {:induction false} SlashedPrefix(a: seq<string>, b: seq<string>)
    requires AreComponents(a) && AreComponents(b)
    ensures Slashed(a) <= Slashed(b) <==> a <= b
    decreases |a|
  {
    if a != [] && b != [] {
      CancelFirst(a[0], Slashed(a[1..]), b[0], Slashed(b[1..]));
      SlashedPrefix(a[1..], b[1..]);
      assert a == [a[0]] + a[1..] && b == [b[0]] + b[1..];
    }
  }

  lemma TrimsToPath(names: seq<string>)
    requires AreComponents(names)
    ensures TrimEndSlash(Slashed(names)) == Path(names) == TrimEndSlash(Path(names))
    ensures TrimSlashes(Slashed(names)) == Path(names) == TrimSlashes(Path(names))
  {
    if names != [] {
      SlashedShape(names);
    }
  }

  predicate AllSlashes(s: string) {
    forall i :: 0 <= i < |s| ==> s[i] == '/'
  }

  lemma {:induction false} SlashesInFront(slashes: string, s: string)
    requires AllSlashes(slashes) && (s != "" ==> s[0] != '/')
    ensures TrimStartSlash(slashes + s) == s
    decreases |slashes|
  {
    if slashes == "" {
      assert slashes + s == s;
    } else {
      assert (slashes + s)[1..] == slashes[1..] + s;
      SlashesInFront(slashes[1..], s);
    }
  }

  lemma {:induction false} SlashesBehind(s: string, slashes: string)
    requires AllSlashes(slashes) && (s != "" ==> s[|s| - 1] != '/')
    ensures TrimEndSlash(s + slashes) == s
    decreases |slashes|
  {
    if slashes == "" {
      assert s + slashes == s;
    } else {
      assert (s + slashes)[..|s + slashes| - 1] == s + slashes[..|slashes| - 1];
      SlashesBehind(s, slashes[..|slashes| - 1]);
    }
  }

  /** A directory may be given with slashes before and behind it. */
  lemma SlashesAreTrimmed(before: string, names: seq<string>, behind: string)
    requires AreComponents(names) && AllSlashes(before) && AllSlashes(behind)
    ensures TrimSlashes(before + Path(names) + behind) == Path(names)
  {
    if names == [] {
      assert before + Path(names) + behind == (before + behind) + "";
      assert AllSlashes(before + behind);
      SlashesInFront(before + behind, "");
      EmptyTrimsToEmpty();
    } else {
      SlashedShape(names);
      var path := Path(names);
      assert before + path + behind == before + (path + behind);
      SlashesInFront(before, path + behind);
      SlashesBehind(path, behind);
    }
  }

  /** A status path: components joined by slashes, with a final one for an untracked directory. */
  predicate Spells(path: string, names: seq<string>) {
    AreComponents(names) && names != [] && (path == Path(names) || path == Slashed(names))
  }

  // A directory's path with its slash, for any directory but the root.
  lemma PathAndSlash(names: seq<string>)
    requires AreComponents(names) && names != []
    ensures Path(names) != "" && Path(names) + "/" == Slashed(names)
  {
    SlashedShape(names);
  }

  // The part of a path below a base that is one of its directories, or itself.
  lemma RelativeWithin(base: seq<string>, path: string, rest: seq<string>)
    requires AreComponents(base) && AreComponents(rest) && base != [] && Spells(path, base + rest)
    ensures rest != [] ==>
              RelativePath(Path(base), path).Some?
              && TrimEndSlash(RelativePath(Path(base), path).value) == Path(rest)
    ensures rest == [] ==> RelativePath(Path(base), path) in {None, Some("")}
  {
    hide RelativePath, Slashed, Path, TrimEndSlash;
    var names, prefix := base + rest, Slashed(base);
    SlashedSplits(base, rest);
    PathAndSlash(base);
    PathAndSlash(names);
    RelativeByPrefix(Path(base), path);
    if rest == [] {
      assert names == base;
      assert prefix <= path ==> path[|prefix|..] == "";
    } else {
      PathAndSlash(rest);
      TrimsToPath(rest);
      assert prefix + Path(rest) + "/" == Path(names) + "/";
      CancelLast(prefix + Path(rest), Path(names));
      var below := if path == Slashed(names) then Slashed(rest) else Path(rest);
      assert path == prefix + below;
      RestOfConcat(prefix, below);
    }
  }

  lemma CancelLast(a: string, b: string)
    requires a + "/" == b + "/"
    ensures a == b
  {
    assert a == (a + "/")[..|a|] && b == (b + "/")[..|b|] && |a + "/"| == |a| + 1 && |b + "/"| == |b| + 1;
  }

  lemma RestOfConcat(a: string, b: string)
    ensures a <= a + b && (a + b)[|a|..] == b
  {
  }

  lemma RelativeOutside(base: seq<string>, path: string, names: seq<string>)
    requires AreComponents(base) && Spells(path, names) && !(base <= names)
    ensures RelativePath(Path(base), path) == None
  {
    SlashedPrefix(base, names);
    PathAndSlash(base);
    PathAndSlash(names);
    RelativeByPrefix(Path(base), path);
    assert path <= Slashed(names);
  }

  // The part of a path below a base.
  lemma RelativeIsRest(base: seq<string>, path: string, names: seq<string>)
    requires AreComponents(base) && Spells(path, names)
    ensures base < names ==>
              RelativePath(Path(base), path).Some?
              && TrimEndSlash(RelativePath(Path(base), path).value) == Path(names[|base|..])
    ensures !(base < names) ==> RelativePath(Path(base), path) in {None, Some("")}
  {
    hide RelativePath, Slashed, TrimEndSlash;
    if base == [] {
      TrimsToPath(names);
      RelativeToRoot(path);
      assert names[0..] == names;
    } else if base <= names {
      assert names == base + names[|base|..];
      RelativeWithin(base, path, names[|base|..]);
    } else {
      RelativeOutside(base, path, names);
    }
  }

  lemma RelativeToRoot(path: string)
    ensures RelativePath("", path) == Some(path)
  {
  }

  lemma RelativeByPrefix(base: string, path: string)
    requires base != ""
    ensures RelativePath(base, path) == if base + "/" <= path then Some(path[|base + "/"|..]) else None
  {
    if base + "/" <= path {
      assert path == base + ("/" + path[|base| + 1..]);
      assert path[|base|..] == "/" + path[|base| + 1..];
    }
    if base <= path && "/" <= path[|base|..] {
      assert path == base + path[|base|..];
      assert path[|base|..][..1] == "/";
      assert path[..|base| + 1] == base + "/";
    }
  }

  /** Listing a directory shows a file exactly when it is a child, shows one marker for the child directory it
      lies below, and ignores it otherwise. */
  lemma PlaceByComponents(base: seq<string>, file: FileStatus, names: seq<string>)
    requires AreComponents(base) && Spells(file.path, names)
    ensures Place(Path(base), file) ==
            if !(base < names) then Outside
            else if |names| == |base| + 1 then Direct
            else Below(Marker(Slashed(names[..|base| + 1]), file))
  {
    hide RelativePath, Slashed, Path, TrimEndSlash, JoinPath, Marker, IndexOf;
    RelativeIsRest(base, file.path, names);
    TrimsToPath([]);
    if base < names {
      var rest := names[|base|..];
      FirstOfPath(rest);
      if |rest| > 1 {
        JoinIsPath(base, rest[0]);
        assert names[..|base| + 1] == base + [rest[0]];
      }
    } else {
      EmptyTrimsToEmpty();
    }
  }

  lemma EmptyTrimsToEmpty()
    ensures TrimEndSlash("") == ""
  {
  }

  // The first component of a path ends at its first slash.
  lemma FirstOfPath(names: seq<string>)
    requires AreComponents(names) && names != []
    ensures Path(names) != ""
    ensures |names| == 1 ==> IndexOf(Path(names), '/') == |Path(names)|
    ensures |names| > 1 ==> IndexOf(Path(names), '/') == |names[0]| < |Path(names)|
                            && Path(names)[..|names[0]|] == names[0]
  {
    PathAndSlash(names);
    if |names| == 1 {
      assert Slashed(names) == names[0] + "/" && Path(names) == names[0];
      IndexOfFirst(names[0], '/', "");
    } else {
      PathAndSlash(names[1..]);
      assert Path(names) == names[0] + ['/'] + Path(names[1..]);
      IndexOfFirst(names[0], '/', Path(names[1..]));
    }
  }

  lemma JoinIsPath(base: seq<string>, name: string)
    requires AreComponents(base) && IsComponent(name)
    ensures TrimEndSlash(JoinPath(Path(base), name)) + "/" == Slashed(base + [name])
  {
    EmptyPath();
    SlashedFirst([name]);
    hide Slashed, Path, TrimEndSlash;
    SlashedSplits(base, [name]);
    PathAndSlash(base + [name]);
    TrimsToPath(base + [name]);
    if base != [] {
      PathAndSlash(base);
    } else {
      assert base + [name] == [name];
    }
    CancelLast(JoinPath(Path(base), name), Path(base + [name]));
  }

  lemma EmptyPath()
    ensures Path([]) == ""
  {
  }

  // ---- listings ----

  /** No field contains the separator of the marker keys. */
  predicate NulFree(f: FileStatus) {
    '\0' !in f.path && '\0' !in f.indexStatus && '\0' !in f.worktreeStatus
  }

  lemma MarkerKeyInjective(a: FileStatus, b: FileStatus)
    requires NulFree(a) && NulFree(b) && MarkerKey(a) == MarkerKey(b)
    ensures a == b
  {
    var key := MarkerKey(a);
    var restA, restB := a.indexStatus + "\0" + a.worktreeStatus, b.indexStatus + "\0" + b.worktreeStatus;
    assert key == a.path + ['\0'] + restA && key == b.path + ['\0'] + restB;
    IndexOfFirst(a.path, '\0', restA);
    IndexOfFirst(b.path, '\0', restB);
    assert key[..|a.path|] == a.path && key[..|b.path|] == b.path;
    assert restA == key[|a.path| + 1..] == restB;
    IndexOfFirst(a.indexStatus, '\0', a.worktreeStatus);
    IndexOfFirst(b.indexStatus, '\0', b.worktreeStatus);
    assert restA == a.indexStatus + ['\0'] + a.worktreeStatus && restB == b.indexStatus + ['\0'] + b.worktreeStatus;
    assert restA[..|a.indexStatus|] == a.indexStatus && restB[..|b.indexStatus|] == b.indexStatus;
    assert restA[|a.indexStatus| + 1..] == a.worktreeStatus && restB[|b.indexStatus| + 1..] == b.worktreeStatus;
  }

  lemma {:induction false} DirectEntriesAre(files: seq<FileStatus>, base: string, f: FileStatus)
    ensures f in DirectEntries(files, base) <==> f in files && Place(base, f).Direct?
  {
    if files != [] {
      DirectEntriesAre(files[..|files| - 1], base, f);
      assert files == files[..|files| - 1] + [files[|files| - 1]];
    }
  }

  lemma PlacedMarkerIsNulFree(base: string, f: FileStatus)
    requires NulFree(f) && '\0' !in base && Place(base, f).Below?
    ensures NulFree(Place(base, f).marker)
  {
    hide TrimEndSlash, IndexOf, IsUntracked;
    var relative := RelativePath(base, f.path).value;
    TrimEndSlashIsPrefix(relative);
    var rest := TrimEndSlash(relative);
    var joined := JoinPath(base, rest[..IndexOf(rest, '/')]);
    TrimEndSlashIsPrefix(joined);
  }

  lemma {:induction false} TrimEndSlashIsPrefix(s: string)
    ensures TrimEndSlash(s) <= s
  {
    if s != "" && s[|s| - 1] == '/' {
      TrimEndSlashIsPrefix(s[..|s| - 1]);
    }
  }

  /** The markers of a listing are those its files lie below, each once. */
  lemma {:induction false} MarkersAre(files: seq<FileStatus>, base: string, m: FileStatus)
    requires '\0' !in base && NulFree(m) && forall f :: f in files ==> NulFree(f)
    ensures m in Markers(files, base).Values <==> exists f :: f in files && Place(base, f) == Below(m)
    ensures forall k :: k in Markers(files, base) ==>
              k == MarkerKey(Markers(files, base)[k]) && NulFree(Markers(files, base)[k])
  {
    if files != [] {
      var init, last := files[..|files| - 1], files[|files| - 1];
      MarkersAre(init, base, m);
      assert files == init + [last];
      var before, after := Markers(init, base), Markers(files, base);
      var place := Place(base, last);
      if place.Below? {
        PlacedMarkerIsNulFree(base, last);
        var key := MarkerKey(place.marker);
        if key in before {
          MarkerKeyInjective(before[key], place.marker);
          assert before[key] in before.Values;
        } else {
          assert after == before[key := place.marker];
          assert after[key] in after.Values;
          assert forall x :: x in before.Values ==> x in after.Values by {
            forall x | x in before.Values ensures x in after.Values {
              var k :| k in before && before[k] == x;
              assert after[k] == x;
            }
          }
        }
      }
    }
  }

  // ---- drilling ----

  /** The components each file's path spells. */
  ghost predicate Named(files: seq<FileStatus>, names: map<FileStatus, seq<string>>) {
    forall f :: f in files ==> f in names && Spells(f.path, names[f]) && NulFree(f)
  }

  /** Expanding markers `n` times from `base` can lead to `dir`. */
  ghost predicate Drills(files: seq<FileStatus>, base: seq<string>, dir: seq<string>, n: nat)
    decreases n
  {
    if n == 0 then dir == base
    else
      && AreComponents(dir)
      && exists prev, m :: Drills(files, base, prev, n - 1)
           && m in Markers(files, Path(prev)).Values && TrimSlashes(m.path) == Path(dir)
  }

  lemma PathInjective(a: seq<string>, b: seq<string>)
    requires AreComponents(a) && AreComponents(b) && Path(a) == Path(b)
    ensures a == b
  {
    if a != [] { SlashedShape(a); }
    if b != [] { SlashedShape(b); }
    assert Slashed(a) == Slashed(b);
    SlashedPrefix(a, b);
    SlashedPrefix(b, a);
  }

  lemma {:induction false} SlashedNulFree(names: seq<string>, i: nat)
    requires '\0' !in Slashed(names) && i <= |names|
    ensures '\0' !in Slashed(names[..i]) && '\0' !in Path(names[..i])
  {
    SlashedSplits(names[..i], names[i..]);
    assert names == names[..i] + names[i..];
    assert forall c :: c in Slashed(names[..i]) ==> c in Slashed(names);
    assert forall c :: c in Path(names[..i]) ==> c in Slashed(names[..i]);
  }

  lemma NamesAreNulFree(f: FileStatus, names: seq<string>)
    requires NulFree(f) && Spells(f.path, names)
    ensures '\0' !in Slashed(names)
  {
    SlashedShape(names);
  }

  // A directory above a file shows the marker of the next directory down.
  lemma MarkerIsShown(files: seq<FileStatus>, f: FileStatus, names: seq<string>, i: nat)
    requires f in files && Spells(f.path, names) && (forall g :: g in files ==> NulFree(g))
    requires i + 1 < |names|
    ensures var m := Marker(Slashed(names[..i + 1]), f);
            m in Markers(files, Path(names[..i])).Values && TrimSlashes(m.path) == Path(names[..i + 1])
  {
    hide Markers, Place, Slashed, Path, TrimSlashes;
    var prev, dir := names[..i], names[..i + 1];
    PlaceByComponents(prev, f, names);
    assert prev < names && names[..|prev| + 1] == dir;
    var m := Marker(Slashed(dir), f);
    NamesAreNulFree(f, names);
    SlashedNulFree(names, i);
    SlashedNulFree(names, i + 1);
    assert NulFree(m);
    MarkersAre(files, Path(prev), m);
    TrimsToPath(dir);
  }

  // Expanding leads from a base to every directory above a file.
  lemma {:induction false} DrillsToAncestor(files: seq<FileStatus>, f: FileStatus, names: seq<string>,
                                            base: seq<string>, i: nat)
    requires f in files && Spells(f.path, names) && (forall g :: g in files ==> NulFree(g))
    requires base < names && |base| <= i < |names|
    ensures Drills(files, base, names[..i], i - |base|)
    decreases i
  {
    hide Markers, Slashed, Path, TrimSlashes, Marker, NulFree;
    if i > |base| {
      DrillsToAncestor(files, f, names, base, i - 1);
      MarkerIsShown(files, f, names, i - 1);
      var prev, m := names[..i - 1], Marker(Slashed(names[..i]), f);
      assert Drills(files, base, prev, i - |base| - 1)
             && m in Markers(files, Path(prev)).Values && TrimSlashes(m.path) == Path(names[..i]);
    }
  }

  lemma ListedAtParent(files: seq<FileStatus>, f: FileStatus, names: seq<string>)
    requires f in files && Spells(f.path, names)
    ensures f in DirectEntries(files, Path(names[..|names| - 1]))
  {
    hide Place, DirectEntries, Path;
    PlaceByComponents(names[..|names| - 1], f, names);
    DirectEntriesAre(files, Path(names[..|names| - 1]), f);
  }

  /** Every file below a base is reached: expanding markers leads to its parent directory, which lists it, and
      every directory on the way shows a marker with its status. */
  lemma EveryFileIsReached(files: seq<FileStatus>, f: FileStatus, names: seq<string>, base: seq<string>)
    requires f in files && Spells(f.path, names) && (forall g :: g in files ==> NulFree(g))
    requires base < names
    ensures var parent := names[..|names| - 1];
            Drills(files, base, parent, |parent| - |base|) && f in DirectEntries(files, Path(parent))
    ensures forall k :: |base| <= k < |names| - 1 ==>
              Marker(Slashed(names[..k + 1]), f) in Markers(files, Path(names[..k])).Values
  {
    hide Markers, DirectEntries, Slashed, Path, Marker, Spells, NulFree, Drills;
    DrillsToAncestor(files, f, names, base, |names| - 1);
    ListedAtParent(files, f, names);
    forall k | |base| <= k < |names| - 1
      ensures Marker(Slashed(names[..k + 1]), f) in Markers(files, Path(names[..k])).Values
    {
      MarkerIsShown(files, f, names, k);
    }
  }

  /** Nothing else is reached: a directory reached by expanding lies between the base and a file, and lists
      only its own children. */
  lemma {:induction false} NothingElseIsReached(files: seq<FileStatus>, names: map<FileStatus, seq<string>>,
                                                base: seq<string>, dir: seq<string>, n: nat)
    requires Named(files, names) && AreComponents(base) && '\0' !in Path(base)
    requires Drills(files, base, dir, n)
    ensures AreComponents(dir) && base <= dir && |dir| == |base| + n && '\0' !in Path(dir)
    ensures n > 0 ==> exists f :: f in files && dir < names[f]
    ensures forall f :: f in DirectEntries(files, Path(dir)) ==>
              f in names && names[f] != [] && names[f][..|names[f]| - 1] == dir
    decreases n
  {
    hide Markers, DirectEntries, Slashed, Path, Marker;
    if n > 0 {
      var prev, m :| Drills(files, base, prev, n - 1)
        && m in Markers(files, Path(prev)).Values && TrimSlashes(m.path) == Path(dir);
      NothingElseIsReached(files, names, base, prev, n - 1);
      MarkerLeadsDown(files, names, prev, dir, m);
    }
    forall f | f in DirectEntries(files, Path(dir))
      ensures f in names && names[f] != [] && names[f][..|names[f]| - 1] == dir
    {
      DirectEntriesAre(files, Path(dir), f);
      PlaceByComponents(dir, f, names[f]);
    }
  }

  lemma MarkerHasFile(files: seq<FileStatus>, base: string, m: FileStatus) returns (f: FileStatus)
    requires '\0' !in base && (forall g :: g in files ==> NulFree(g)) && m in Markers(files, base).Values
    ensures f in files && Place(base, f) == Below(m)
  {
    hide Markers, Place;
    var k :| k in Markers(files, base) && Markers(files, base)[k] == m;
    MarkersAreNulFree(files, base);
    MarkersAre(files, base, m);
    f :| f in files && Place(base, f) == Below(m);
  }

  lemma MarkerLeadsDown(files: seq<FileStatus>, names: map<FileStatus, seq<string>>,
                        prev: seq<string>, dir: seq<string>, m: FileStatus)
    requires Named(files, names) && AreComponents(prev) && AreComponents(dir) && '\0' !in Path(prev)
    requires m in Markers(files, Path(prev)).Values && TrimSlashes(m.path) == Path(dir)
    ensures prev < dir && |dir| == |prev| + 1 && '\0' !in Path(dir)
    ensures exists f :: f in files && dir < names[f] && m == Marker(Slashed(dir), f)
  {
    hide Markers, Place, Slashed, Path, TrimSlashes;
    var f := MarkerHasFile(files, Path(prev), m);
    PlaceByComponents(prev, f, names[f]);
    var found := names[f][..|prev| + 1];
    TrimsToPath(found);
    PathInjective(found, dir);
    NamesAreNulFree(f, names[f]);
    SlashedNulFree(names[f], |prev| + 1);
  }

  lemma MarkersAreNulFree(files: seq<FileStatus>, base: string)
    requires '\0' !in base && forall f :: f in files ==> NulFree(f)
    ensures forall k :: k in Markers(files, base) ==> NulFree(Markers(files, base)[k])
  {
    MarkersAre(files, base, FileStatus("", "", ""));
  }
}
