/** Which commits survive: ancestry after a merge, exact conditions for a lossless removal, whole runs. */
module WorktreeRuns {
  import opened CommitGraph
  import opened Wrappers
  import opened WorktreeModel

  /** Commit `c` can be reached from a local branch. */
  ghost predicate Live(r: Repo, c: nat) {
    exists b :: b in r.branches && Reaches(r.history, r.branches[b], c)
  }

  ghost predicate LosesNothing(r: Repo, s: Repo) {
    forall c :: Live(r, c) ==> Live(s, c)
  }

  /** Every old branch tip is reachable from some branch of a history that only grew. */
  ghost predicate Covers(r: Repo, s: Repo) {
    && r.history <= s.history
    && forall b :: b in r.branches ==> Live(s, r.branches[b])
  }

  lemma CoveringLosesNothing(r: Repo, s: Repo)
    requires Valid(r) && Covers(r, s)
    ensures LosesNothing(r, s)
  {
    forall c | Live(r, c)
      ensures Live(s, c)
    {
      var b :| b in r.branches && Reaches(r.history, r.branches[b], c);
      ReachesGrown(r.history, s.history, r.branches[b], c);
      var b' :| b' in s.branches && Reaches(s.history, s.branches[b'], r.branches[b]);
      ReachesTransitive(s.history, s.branches[b'], r.branches[b], c);
    }
  }

  /** Branches only move to descendants: the history grows and each surviving branch keeps its old tip. */
  ghost predicate Forward(r: Repo, s: Repo) {
    && Valid(s)
    && r.history <= s.history
    && s.tags == r.tags && s.root == r.root
    && forall b :: b in r.branches && b in s.branches ==> Reaches(s.history, s.branches[b], r.branches[b])
  }

  ghost predicate KeepsBranches(r: Repo, s: Repo) {
    forall b :: b in r.branches ==> b in s.branches
  }

  lemma ForwardChain(r: Repo, s: Repo, t: Repo)
    requires Valid(r) && Forward(r, s) && Forward(s, t) && KeepsBranches(r, s)
    ensures Forward(r, t)
  {
    forall b | b in r.branches && b in t.branches
      ensures Reaches(t.history, t.branches[b], r.branches[b])
    {
      ReachesGrown(s.history, t.history, s.branches[b], r.branches[b]);
      ReachesTransitive(t.history, t.branches[b], s.branches[b], r.branches[b]);
    }
  }

  lemma ForwardSelf(r: Repo)
    requires Valid(r)
    ensures Forward(r, r) && KeepsBranches(r, r)
  {
  }

  lemma ForwardCovers(r: Repo, s: Repo)
    requires Forward(r, s) && KeepsBranches(r, s)
    ensures Covers(r, s)
  {
  }

  // ---- directories ----

  lemma WithDirectoryForward(r: Repo, path: Path)
    requires Valid(r)
    ensures var s := WithDirectory(r, path);
            Valid(s) && Forward(r, s) && KeepsBranches(r, s)
  {
    var s := WithDirectory(r, path);
    forall d, k | d in s.dirs && 0 <= k <= |d|
      ensures d[..k] in s.dirs
    {
      if d !in r.dirs {
        var n :| 0 <= n <= |path| && d == path[..n];
        assert d[..k] == path[..k];
      }
    }
  }

  lemma WithoutTreeForward(r: Repo, path: Path)
    requires Valid(r) && !(path <= r.root)
    ensures var s := r.(dirs := WithoutTree(r.dirs, path));
            Valid(s) && Forward(r, s) && KeepsBranches(r, s)
  {
  }

  /** The worktree found contains the path, and no worktree inside it does. */
  lemma {:induction false} EnclosingIsInnermost(linked: set<Path>, root: Path, path: Path)
    requires root !in linked
    ensures var place := Enclosing(linked, root, path);
            var top := match place case None => 0 case Some(Main) => |root| case Some(Linked(p)) => |p|;
            && (place == Some(Main) ==> root <= path)
            && (forall p :: place == Some(Linked(p)) ==> p in linked && p <= path)
            && (forall k :: top < k <= |path| ==> path[..k] !in linked && path[..k] != root)
            && (place == None ==> path[..0] !in linked && path[..0] != root)
    decreases |path|
  {
    assert path[..|path|] == path;
    if path !in linked && path != root && path != [] {
      var up := path[..|path| - 1];
      EnclosingIsInnermost(linked, root, up);
      assert forall k :: 0 <= k < |path| ==> up[..k] == path[..k];
    }
  }

  // Pruning one worktree leaves every path outside it where it was.
  lemma {:induction false} EnclosingStays(linked: set<Path>, root: Path, gone: Path, path: Path)
    requires Enclosing(linked, root, path) != Some(Linked(gone))
    ensures Enclosing(linked - {gone}, root, path) == Enclosing(linked, root, path)
    decreases |path|
  {
    if path !in linked && path != root && path != [] {
      EnclosingStays(linked, root, gone, path[..|path| - 1]);
    }
  }

  // ---- moving HEAD ----

  /** The worktree's HEAD is `c` or a descendant of it. */
  ghost predicate HeadReaches(r: Repo, place: Place, c: nat)
    requires IsPlace(r, place)
  {
    && var head := HeadCommit(r, HeadOf(r, place));
    && head.Some? && Reaches(r.history, head.value, c)
  }

  lemma MoveHeadForward(r: Repo, place: Place, c: nat)
    requires Valid(r) && IsPlace(r, place) && c < |r.history|
    requires HeadCommit(r, HeadOf(r, place)).Some? ==>
               Reaches(r.history, c, HeadCommit(r, HeadOf(r, place)).value)
    ensures Forward(r, MoveHead(r, place, c)) && KeepsBranches(r, MoveHead(r, place, c))
    ensures IsPlace(MoveHead(r, place, c), place)
    ensures HeadCommit(MoveHead(r, place, c), HeadOf(MoveHead(r, place, c), place)) == Some(c)
  {
  }

  lemma GrownForward(r: Repo, parents: seq<nat>)
    requires Valid(r) && forall i :: 0 <= i < |parents| ==> parents[i] < |r.history|
    ensures Forward(r, r.(history := r.history + [parents]))
    ensures forall i :: 0 <= i < |parents| ==> Reaches(r.history + [parents], |r.history|, parents[i])
  {
    var grown := r.history + [parents];
    assert grown[|r.history|] == parents;
    forall i | 0 <= i < |parents|
      ensures Reaches(grown, |r.history|, parents[i])
    {
      assert Reaches(grown, grown[|r.history|][i], parents[i]);
    }
  }

  lemma AddCommitForward(r: Repo, place: Place, parents: seq<nat>)
    requires Valid(r) && IsPlace(r, place)
    requires forall i :: 0 <= i < |parents| ==> parents[i] < |r.history|
    requires HeadCommit(r, HeadOf(r, place)).Some? ==> HeadCommit(r, HeadOf(r, place)).value in parents
    ensures var s := AddCommit(r, place, parents);
            Forward(r, s) && KeepsBranches(r, s) && IsPlace(s, place)
            && forall i :: 0 <= i < |parents| ==> HeadReaches(s, place, parents[i])
  {
    hide Reaches;
    var grown := r.(history := r.history + [parents]);
    GrownForward(r, parents);
    MoveHeadForward(grown, place, |r.history|);
    ForwardChain(r, grown, MoveHead(grown, place, |r.history|));
  }

  lemma CommitForward(r: Repo, path: Path)
    requires Valid(r)
    ensures Forward(r, CommitIn(r, path).0) && KeepsBranches(r, CommitIn(r, path).0)
  {
    var place := Discover(r, path);
    if place.Some? {
      var head := HeadCommit(r, HeadOf(r, place.value));
      AddCommitForward(r, place.value, if head.Some? then [head.value] else []);
    }
  }

  // ---- merging ----

  lemma FastForwardForward(r: Repo, place: Place, ours: nat, theirs: nat, fault: RefFault)
    requires Valid(r) && IsPlace(r, place) && Reaches(r.history, theirs, ours)
    requires HeadCommit(r, HeadOf(r, place)) == Some(ours)
    ensures var (s, outcome) := FastForwardHead(r, place, theirs, fault);
            && Forward(r, s) && KeepsBranches(r, s) && IsPlace(s, place)
            && (outcome.Done? ==> HeadReaches(s, place, ours) && HeadReaches(s, place, theirs))
  {
    MoveHeadForward(r, place, theirs);
  }

  lemma TrueMergeForward(r: Repo, place: Place, ours: nat, theirs: nat)
    requires Valid(r) && IsPlace(r, place) && theirs < |r.history|
    requires HeadCommit(r, HeadOf(r, place)) == Some(ours)
    ensures var s := AddCommit(r, place, [ours, theirs]);
            && Forward(r, s) && KeepsBranches(r, s) && IsPlace(s, place)
            && HeadReaches(s, place, ours) && HeadReaches(s, place, theirs)
  {
    var parents := [ours, theirs];
    AddCommitForward(r, place, parents);
    assert HeadReaches(AddCommit(r, place, parents), place, parents[0]);
    assert HeadReaches(AddCommit(r, place, parents), place, parents[1]);
  }

  lemma MergeCommitsForward(r: Repo, place: Place, ours: nat, theirs: nat, env: MergeEnv)
    requires Valid(r) && IsPlace(r, place) && theirs < |r.history|
    requires HeadCommit(r, HeadOf(r, place)) == Some(ours)
    ensures var (s, outcome) := MergeCommits(r, place, ours, theirs, env);
            && Forward(r, s) && KeepsBranches(r, s) && IsPlace(s, place)
            && (outcome.Done? ==> HeadReaches(s, place, ours) && HeadReaches(s, place, theirs))
  {
    if Reaches(r.history, ours, theirs) {
    } else if Reaches(r.history, theirs, ours) {
      FastForwardForward(r, place, ours, theirs, env.fault);
    } else {
      TrueMergeForward(r, place, ours, theirs);
    }
  }

  /** A merge never rewinds a branch, and on success the new HEAD has both sides in its past. */
  lemma MergeBranchForward(r: Repo, place: Place, name: string, env: MergeEnv)
    requires Valid(r) && IsPlace(r, place)
    ensures var (s, outcome) := MergeBranch(r, place, name, env);
            && Forward(r, s) && KeepsBranches(r, s) && IsPlace(s, place)
            && (outcome.Done? ==>
                  && AnnotatedCommit(r, name).Some? && HeadReaches(s, place, AnnotatedCommit(r, name).value)
                  && HeadCommit(r, HeadOf(r, place)).Some?
                  && HeadReaches(s, place, HeadCommit(r, HeadOf(r, place)).value))
  {
    var theirs := AnnotatedCommit(r, name);
    var ours := HeadCommit(r, HeadOf(r, place));
    if theirs.Some? && ours.Some? {
      MergeCommitsForward(r, place, ours.value, theirs.value, env);
    }
  }

  /** Nothing but the HEAD of `place`, or the branch it is on, differs between `r` and `s`. */
  ghost predicate MovesOnlyHead(r: Repo, place: Place, s: Repo)
    requires IsPlace(r, place)
  {
    && s.dirs == r.dirs && s.tags == r.tags && s.root == r.root
    && match HeadOf(r, place)
       case OnBranch(name) =>
         s.main == r.main && s.linked == r.linked && s.branches - {name} == r.branches - {name}
       case Detached(_) =>
         && s.branches == r.branches
         && (place.Main? ==> s.main.Detached? && s.linked == r.linked)
         && (place.Linked? ==>
               && s.main == r.main && s.linked - {place.path} == r.linked - {place.path}
               && place.path in s.linked && s.linked[place.path].Detached?)
  }

  lemma MoveHeadMovesOnlyHead(r: Repo, place: Place, grown: History, c: nat)
    requires IsPlace(r, place)
    ensures MovesOnlyHead(r, place, MoveHead(r.(history := grown), place, c))
  {
  }

  /** A merge moves the checked-out branch of its worktree and nothing else; a conflict moves no ref. */
  lemma MergeBranchMovesOnlyHead(r: Repo, place: Place, name: string, env: MergeEnv)
    requires Valid(r) && IsPlace(r, place)
    ensures var (s, outcome) := MergeBranch(r, place, name, env);
            && MovesOnlyHead(r, place, s)
            && (outcome == Failed(Conflicts) ==> s == r)
  {
    var theirs := AnnotatedCommit(r, name);
    var ours := HeadCommit(r, HeadOf(r, place));
    if theirs.Some? && ours.Some? {
      MoveHeadMovesOnlyHead(r, place, r.history, theirs.value);
      MoveHeadMovesOnlyHead(r, place, r.history + [[ours.value, theirs.value]], |r.history|);
    }
  }

  // ---- deleting a branch ----

  /** The tip of `b` is contained in another local branch. */
  ghost predicate ContainedElsewhere(r: Repo, b: string) {
    exists other :: other in r.branches && other != b && b in r.branches
                    && Reaches(r.history, r.branches[other], r.branches[b])
  }

  // What deleting `b` leaves.
  ghost predicate WithoutBranch(r: Repo, b: string, s: Repo) {
    && b in r.branches && b !in s.branches && s.history == r.history
    && forall x :: x in r.branches && x != b ==> x in s.branches && s.branches[x] == r.branches[x]
  }

  lemma LossIfNotContained(r: Repo, b: string, s: Repo)
    requires Valid(r) && WithoutBranch(r, b, s) && LosesNothing(r, s)
    requires forall x :: x in s.branches ==> x in r.branches
    ensures ContainedElsewhere(r, b)
  {
    assert Live(r, r.branches[b]);
    var other :| other in s.branches && Reaches(s.history, s.branches[other], r.branches[b]);
    assert other != b && s.branches[other] == r.branches[other];
  }

  lemma NoLossIfContained(r: Repo, b: string, s: Repo)
    requires Valid(r) && WithoutBranch(r, b, s) && ContainedElsewhere(r, b)
    ensures LosesNothing(r, s)
  {
    var keep :| keep in r.branches && keep != b && Reaches(r.history, r.branches[keep], r.branches[b]);
    assert keep in s.branches;
    forall x | x in r.branches
      ensures Live(s, r.branches[x])
    {
      assert x != b ==> x in s.branches;
      assert Reaches(s.history, r.branches[x], r.branches[x]);
    }
    CoveringLosesNothing(r, s);
  }

  /** Deleting a branch loses nothing exactly when another branch contains its tip. */
  lemma DeleteBranchLosesNothingIff(r: Repo, b: string, fails: bool)
    requires Valid(r) && b in r.branches && b !in DeleteBranch(r, b, fails).0.branches
    ensures LosesNothing(r, DeleteBranch(r, b, fails).0) <==> ContainedElsewhere(r, b)
  {
    hide LosesNothing, ContainedElsewhere, Valid;
    var s := DeleteBranch(r, b, fails).0;
    if LosesNothing(r, s) {
      LossIfNotContained(r, b, s);
    }
    if ContainedElsewhere(r, b) {
      NoLossIfContained(r, b, s);
    }
  }

  /** A head that stays checked out on another branch, at or past the tip of `b`, makes deleting `b` safe. */
  lemma DeleteBranchGuarded(r: Repo, b: string, keep: string, fails: bool)
    requires Valid(r)
    requires b in r.branches ==> keep in r.branches && Reaches(r.history, r.branches[keep], r.branches[b])
    requires CheckedOut(r, keep)
    ensures LosesNothing(r, DeleteBranch(r, b, fails).0)
  {
    var s := DeleteBranch(r, b, fails).0;
    if b in r.branches && b !in s.branches {
      assert keep != b;
      DeleteBranchLosesNothingIff(r, b, fails);
    }
  }

  lemma DeleteForward(r: Repo, b: string, fails: bool)
    requires Valid(r)
    ensures Forward(r, DeleteBranch(r, b, fails).0)
    ensures forall x :: x in r.branches && x != b ==> x in DeleteBranch(r, b, fails).0.branches
  {
  }

  // ---- the operations step by step ----

  lemma AddWorktreeForward(r: Repo, dest: Path, branch: string, start: nat, env: CreateEnv)
    requires Valid(r) && start < |r.history| && !(dest <= r.root)
    ensures var s := AddWorktree(r, dest, branch, start, env).0;
            Forward(r, s) && KeepsBranches(r, s)
  {
    hide Reaches, WithDirectory, CheckedOut;
    var named := if branch in r.branches then r else r.(branches := r.branches[branch := start]);
    ForwardSelf(r);
    assert Forward(r, named) && KeepsBranches(r, named);
    WithDirectoryForward(named, dest);
    ForwardChain(r, named, WithDirectory(named, dest));
    var s := AddWorktree(r, dest, branch, start, env).0;
    if s.linked != r.linked {
      LinkedForward(r, WithDirectory(named, dest), dest, branch);
    }
  }

  lemma LinkedForward(r: Repo, s: Repo, dest: Path, branch: string)
    requires Forward(r, s) && KeepsBranches(r, s) && !(dest <= s.root)
    ensures var t := s.(linked := s.linked[dest := OnBranch(branch)]);
            Forward(r, t) && KeepsBranches(r, t)
  {
  }

  lemma OutsideRoot(r: Repo, dest: Path)
    requires ValidDirs(r) && dest !in r.dirs
    ensures !(dest <= r.root)
  {
    if dest <= r.root {
      PrefixInDirs(r, r.root, dest);
    }
  }

  lemma PrefixInDirs(r: Repo, path: Path, prefix: Path)
    requires ValidDirs(r) && path in r.dirs && prefix <= path
    ensures prefix in r.dirs
  {
    assert path[..|prefix|] == prefix;
  }

  lemma CreateForward(r: Repo, caller: Path, dest: Path, branch: string, base: Option<string>, env: CreateEnv)
    requires Valid(r)
    ensures var s := CreateWorktree(r, caller, dest, branch, base, env).0;
            Forward(r, s) && KeepsBranches(r, s)
  {
    hide Forward, KeepsBranches, AddWorktree, CurrentBranch, WithDirectory, ValidDirs;
    ForwardSelf(r);
    var start := StartOf(r, caller, base);
    if dest !in r.dirs {
      OutsideRoot(r, dest);
      var made := if env.prepare.StoppedAt? && env.prepare.depth < |dest| then dest[..env.prepare.depth]
                  else Parent(dest);
      var ready := WithDirectory(r, made);
      WithDirectoryForward(r, made);
      SameRefs(r, made);
      if env.prepare.Prepared? && start.Some? {
        AddWorktreeForward(ready, dest, branch, start.value, env);
        ForwardChain(r, ready, AddWorktree(ready, dest, branch, start.value, env).0);
        KeepsChain(r, ready, AddWorktree(ready, dest, branch, start.value, env).0);
      }
    }
  }

  lemma SameRefs(r: Repo, path: Path)
    ensures WithDirectory(r, path) == r.(dirs := r.dirs + Prefixes(path))
  {
  }

  lemma KeepsChain(r: Repo, s: Repo, t: Repo)
    requires KeepsBranches(r, s) && KeepsBranches(s, t)
    ensures KeepsBranches(r, t)
  {
  }

  /** A creation gets as far as making the branch. */
  predicate ReachesBranch(r: Repo, caller: Path, dest: Path, branch: string, base: Option<string>, env: CreateEnv)
    requires Valid(r)
  {
    && branch != "" && Discover(r, caller).Some? && HeadCommit(r, r.main).Some? && dest !in r.dirs
    && env.prepare.Prepared? && StartOf(r, caller, base).Some?
  }

  /** A successful creation adds one worktree on the branch, with the directories above it, and touches no other
      ref. A failed one leaves directories above the destination, and the new branch exactly when undoing it fails
      or a linked worktree holds it, unborn as it was. */
  lemma CreateRollsBackIff(r: Repo, caller: Path, dest: Path, branch: string, base: Option<string>, env: CreateEnv)
    requires Valid(r)
    ensures var (s, outcome) := CreateWorktree(r, caller, dest, branch, base, env);
            && (outcome.Done? ==>
                  && dest !in r.dirs && s.dirs == r.dirs + Prefixes(dest)
                  && CurrentBranch(s, dest) == Some(branch) && s.linked == r.linked[dest := OnBranch(branch)]
                  && s.branches - {branch} == r.branches - {branch}
                  && (branch in r.branches ==> s.branches == r.branches))
            && (outcome.Failed? ==>
                  && s == r.(dirs := s.dirs, branches := s.branches)
                  && r.dirs <= s.dirs <= r.dirs + Prefixes(Parent(dest))
                  && (s.branches != r.branches <==>
                        && ReachesBranch(r, caller, dest, branch, base, env) && branch !in r.branches
                        && (env.rollbackFails || CheckedOutLinked(r, branch)))
                  && (s.branches != r.branches ==>
                        s.branches == r.branches[branch := StartOf(r, caller, base).value]))
  {
    hide AddWorktree, Prefixes, CurrentBranch, ValidDirs, StartOf;
    PrefixesOfParent(dest);
    if env.prepare.StoppedAt? && env.prepare.depth < |dest| {
      PrefixesOfPrefix(dest, env.prepare.depth);
    }
    var start := StartOf(r, caller, base);
    if start.Some? && branch != "" && HeadCommit(r, r.main).Some? {
      AddWorktreeRollsBackIff(WithDirectory(r, Parent(dest)), dest, branch, start.value, env);
    }
  }

  lemma AddWorktreeRollsBackIff(r: Repo, dest: Path, branch: string, start: nat, env: CreateEnv)
    requires branch != "" && HeadCommit(r, r.main).Some?
    ensures var (s, outcome) := AddWorktree(r, dest, branch, start, env);
            && (outcome.Done? ==>
                  && s.dirs == r.dirs + Prefixes(dest)
                  && CurrentBranch(s, dest) == Some(branch) && s.linked == r.linked[dest := OnBranch(branch)]
                  && s.branches - {branch} == r.branches - {branch}
                  && (branch in r.branches ==> s.branches == r.branches))
            && (outcome.Failed? ==>
                  && s == r.(branches := s.branches)
                  && (s.branches != r.branches <==>
                        branch !in r.branches && (env.rollbackFails || CheckedOutLinked(r, branch)))
                  && (s.branches != r.branches ==> s.branches == r.branches[branch := start]))
  {
    hide Prefixes;
    PrefixesOfParent(dest);
    assert branch !in r.branches ==> branch in r.branches[branch := start];
  }

  lemma PrefixesOfPrefix(path: Path, n: nat)
    requires n < |path|
    ensures Prefixes(path[..n]) <= Prefixes(Parent(path))
  {
    forall k | 0 <= k <= n
      ensures path[..n][..k] in Prefixes(Parent(path))
    {
      assert path[..n][..k] == Parent(path)[..k];
    }
  }

  lemma PrefixesOfParent(path: Path)
    ensures Prefixes(Parent(path)) <= Prefixes(path) && path in Prefixes(path)
  {
    assert path[..|path|] == path;
    forall k | 0 <= k <= |Parent(path)|
      ensures Parent(path)[..k] in Prefixes(path)
    {
      assert Parent(path)[..k] == path[..k];
    }
  }

  // The main worktree is attached to a branch that holds everything `branch` does.
  ghost predicate MainHolds(r: Repo, branch: string) {
    && r.main.OnBranch? && r.main.name in r.branches && branch in r.branches
    && Reaches(r.history, r.branches[r.main.name], r.branches[branch])
  }

  lemma SwitchForward(r: Repo, into: Base, fails: bool)
    requires Valid(r)
    ensures var (s, outcome) := SwitchTo(r, into, fails);
            && Forward(r, s) && KeepsBranches(r, s) && s == r.(main := s.main)
            && (outcome.Done? && !into.FullTag? ==>
                  s.main == OnBranch(into.name) && into.name in s.branches
                  && (into == FullBranch(into.name) ==> !CheckedOutLinked(r, into.name)))
  {
  }

  lemma MergeIntoMain(r: Repo, branch: string, merge: MergeEnv)
    requires Valid(r) && branch in r.branches
    ensures var (s, outcome) := MergeBranch(r, Main, branch, merge);
            && Forward(r, s) && KeepsBranches(r, s) && s.linked == r.linked
            && (outcome.Done? && branch !in r.tags && r.main.OnBranch? && r.main.name != branch ==>
                  MainHolds(s, branch))
  {
    MergeBranchForward(r, Main, branch, merge);
    MergeBranchMovesOnlyHead(r, Main, branch, merge);
    var s := MergeBranch(r, Main, branch, merge).0;
    if r.main.OnBranch? && r.main.name != branch {
      assert branch in s.branches - {r.main.name};
    }
  }

  lemma RemoveLinkedForward(r: Repo, path: Path, fault: PruneFault)
    requires Valid(r)
    ensures var s := RemoveLinked(r, path, fault).0;
            Forward(r, s) && KeepsBranches(r, s) && s == r.(linked := s.linked, dirs := s.dirs)
  {
    ForwardSelf(r);
    if path in r.linked {
      WithoutTreeForward(r, path);
    }
  }

  // The state of a merge with removal just before its branch is deleted.
  lemma MergeWorktreeStages(r: Repo, caller: Path, path: Path, base: Option<Base>, removeAfter: bool,
                            clean: bool, checkoutFails: bool, merge: MergeEnv, remove: RemoveEnv)
    returns (t: Repo, branch: string)
    requires Valid(r)
    ensures var s := MergeWorktree(r, caller, path, base, removeAfter, clean, checkoutFails, merge, remove);
            && Forward(r, t) && KeepsBranches(r, t)
            && (s.0 == t || (removeAfter && s == DeleteBranch(t, branch, remove.deleteFails)
                             && (MergeGuard(r, path, base) ==> MainHolds(t, branch))))
  {
    hide Reaches, MergeBranch, DeleteBranch, ValidDirs;
    ForwardSelf(r);
    branch := "";
    t := MergeWorktree(r, caller, path, base, removeAfter, clean, checkoutFails, merge, remove).0;
    var current := CurrentBranch(r, path);
    var into := BaseOf(r, base);
    if Discover(r, caller) == None || Discover(r, path) == None || !clean || current == None || into == None
       || into == Some(Short(current.value)) {
      return;
    }
    branch := current.value;
    var (based, switched) := SwitchTo(r, into.value, checkoutFails);
    SwitchForward(r, into.value, checkoutFails);
    if switched.Failed? {
      return;
    }
    var (merged, outcome) := MergeBranch(based, Main, branch, merge);
    MergeIntoMain(based, branch, merge);
    ForwardChain(r, based, merged);
    if outcome.Failed? || !removeAfter {
      return;
    }
    var (pruned, removed) := RemoveLinked(merged, path, remove.prune);
    RemoveLinkedForward(merged, path, remove.prune);
    ForwardChain(r, merged, pruned);
    t := pruned;
    if removed.Done? {
      // The path is a linked worktree holding `branch`, so the main worktree is on another one.
      assert r.linked[path] == OnBranch(branch);
      assert CheckedOutLinked(r, branch);
    }
  }

  /** The remaining guards of a merge that removes: no tag hides the branch, and the base is a branch. */
  ghost predicate MergeGuard(r: Repo, path: Path, base: Option<Base>) {
    && (CurrentBranch(r, path).Some? ==> CurrentBranch(r, path).value !in r.tags)
    && (BaseOf(r, base).Some? ==> !BaseOf(r, base).value.FullTag?)
  }

  lemma MergeWorktreeLosesNothing(r: Repo, caller: Path, path: Path, base: Option<Base>, removeAfter: bool,
                                  clean: bool, checkoutFails: bool, merge: MergeEnv, remove: RemoveEnv)
    requires Valid(r)
    requires removeAfter ==> MergeGuard(r, path, base)
    ensures var s := MergeWorktree(r, caller, path, base, removeAfter, clean, checkoutFails, merge, remove).0;
            Forward(r, s) && LosesNothing(r, s)
  {
    var s := MergeWorktree(r, caller, path, base, removeAfter, clean, checkoutFails, merge, remove).0;
    var t, branch := MergeWorktreeStages(r, caller, path, base, removeAfter, clean, checkoutFails, merge, remove);
    ForwardCovers(r, t);
    CoveringLosesNothing(r, t);
    if s != t {
      DeleteBranchGuarded(t, branch, t.main.name, remove.deleteFails);
      DeleteForward(t, branch, remove.deleteFails);
      ForwardChain(r, t, s);
    }
  }

  lemma MergeWorktreeForward(r: Repo, caller: Path, path: Path, base: Option<Base>, removeAfter: bool,
                             clean: bool, checkoutFails: bool, merge: MergeEnv, remove: RemoveEnv)
    requires Valid(r)
    ensures Forward(r, MergeWorktree(r, caller, path, base, removeAfter, clean, checkoutFails, merge, remove).0)
  {
    var s := MergeWorktree(r, caller, path, base, removeAfter, clean, checkoutFails, merge, remove).0;
    var t, branch := MergeWorktreeStages(r, caller, path, base, removeAfter, clean, checkoutFails, merge, remove);
    if s != t {
      DeleteForward(t, branch, remove.deleteFails);
      ForwardChain(r, t, s);
    }
  }

  // What the new HEAD of a merge holds: everything either side held, and itself.
  lemma MergedTipContained(r: Repo, branch: string, merge: MergeEnv)
    requires Valid(r) && branch in r.branches && r.main != OnBranch(branch)
    requires MergeBranch(r, Main, branch, merge).1.Done?
    ensures var s := MergeBranch(r, Main, branch, merge).0;
            ContainedElsewhere(s, branch) <==>
              ContainedElsewhere(r, branch)
              || (r.main.OnBranch? && Reaches(r.history, AnnotatedCommit(r, branch).value, r.branches[branch]))
  {
    var s := MergeBranch(r, Main, branch, merge).0;
    MergeBranchForward(r, Main, branch, merge);
    MergeBranchMovesOnlyHead(r, Main, branch, merge);
    var tip, theirs, ours := r.branches[branch], AnnotatedCommit(r, branch).value, HeadCommit(r, r.main).value;
    MergedAncestors(r, Main, ours, theirs, merge, tip);
    ReachesGrown(r.history, s.history, theirs, tip);
    if r.main.OnBranch? {
      assert branch in s.branches - {r.main.name};
    }
    assert s.branches[branch] == tip;
    forall b | b in r.branches && r.main != OnBranch(b)
      ensures b in s.branches && s.branches[b] == r.branches[b]
      ensures Reaches(r.history, r.branches[b], tip) <==> Reaches(s.history, s.branches[b], tip)
    {
      if r.main.OnBranch? {
        assert b in s.branches - {r.main.name};
      }
      ReachesGrown(r.history, s.history, r.branches[b], tip);
    }
    assert forall b :: b in s.branches ==> b in r.branches by {
      if r.main.OnBranch? {
        assert forall b :: b in s.branches && b != r.main.name ==> b in s.branches - {r.main.name};
      }
    }
  }

  lemma MergedAncestors(r: Repo, place: Place, ours: nat, theirs: nat, env: MergeEnv, c: nat)
    requires Valid(r) && IsPlace(r, place) && theirs < |r.history| && c < |r.history|
    requires HeadCommit(r, HeadOf(r, place)) == Some(ours) && ours < |r.history|
    requires MergeCommits(r, place, ours, theirs, env).1.Done?
    ensures var s := MergeCommits(r, place, ours, theirs, env).0;
            IsPlace(s, place) && (HeadReaches(s, place, c) <==>
                                    Reaches(r.history, ours, c) || Reaches(r.history, theirs, c))
  {
    var s := MergeCommits(r, place, ours, theirs, env).0;
    if Reaches(r.history, ours, theirs) {
      if Reaches(r.history, theirs, c) { ReachesTransitive(r.history, ours, theirs, c); }
    } else if Reaches(r.history, theirs, ours) {
      if Reaches(r.history, ours, c) { ReachesTransitive(r.history, theirs, ours, c); }
      MoveHeadForward(r, place, theirs);
    } else {
      MergeCommitReaches(r.history, ours, theirs, ours);
      MergeCommitReaches(r.history, ours, theirs, c);
      hide Reaches;
      MoveHeadForward(r.(history := r.history + [[ours, theirs]]), place, |r.history|);
    }
  }

  lemma MergeCommitReaches(h: History, ours: nat, theirs: nat, c: nat)
    requires ours < |h| && theirs < |h| && c < |h|
    ensures var grown := h + [[ours, theirs]];
            && Reaches(grown, ours, ours)
            && (Reaches(grown, |h|, c) <==> Reaches(h, ours, c) || Reaches(h, theirs, c))
  {
    var grown := h + [[ours, theirs]];
    ReachesGrown(h, grown, ours, c);
    ReachesGrown(h, grown, theirs, c);
    assert grown[|h|] == [ours, theirs];
    assert Reaches(grown, |h|, c) <==> Reaches(grown, grown[|h|][0], c) || Reaches(grown, grown[|h|][1], c);
  }

  /** A merge that removed its worktree and branch lost nothing exactly when another branch already held
      the tip, or HEAD was on a branch and what the branch's name resolves to contains the tip. */
  lemma MergeWorktreeLosesNothingIff(r: Repo, caller: Path, path: Path, base: Option<Base>,
                                     clean: bool, checkoutFails: bool, merge: MergeEnv, remove: RemoveEnv)
    requires Valid(r)
    requires MergeWorktree(r, caller, path, base, true, clean, checkoutFails, merge, remove).1.Done?
    ensures var s := MergeWorktree(r, caller, path, base, true, clean, checkoutFails, merge, remove).0;
            var branch := CurrentBranch(r, path).value;
            LosesNothing(r, s) <==>
              ContainedElsewhere(r, branch)
              || (IsBranchBase(r, base) && Reaches(r.history, AnnotatedCommit(r, branch).value, r.branches[branch]))
  {
    var s := MergeWorktree(r, caller, path, base, true, clean, checkoutFails, merge, remove).0;
    hide MergeWorktree, LosesNothing, ContainedElsewhere, Reaches, Forward, KeepsBranches, MergeBranch, DeleteBranch,
      SwitchTo, RemoveLinked, Valid;
    var branch, into := CurrentBranch(r, path).value, BaseOf(r, base).value;
    DoneStages(r, caller, path, base, clean, checkoutFails, merge, remove);
    var based := SwitchTo(r, into, checkoutFails).0;
    SwitchForward(r, into, checkoutFails);
    var merged := MergeBranch(based, Main, branch, merge).0;
    var pruned := RemoveLinked(merged, path, remove.prune).0;
    MergeIntoMain(based, branch, merge);
    RemoveLinkedForward(merged, path, remove.prune);
    MergedTipContained(based, branch, merge);
    TipStays(based, branch, merge);
    SameContained(merged, pruned, branch);
    SameContained(r, based, branch);
    ForwardChain(r, based, merged);
    KeepsChain(r, based, merged);
    ForwardChain(r, merged, pruned);
    KeepsChain(r, merged, pruned);
    DeletionAfterCover(r, pruned, branch, remove.deleteFails);
  }

  lemma TipStays(r: Repo, branch: string, merge: MergeEnv)
    requires Valid(r) && branch in r.branches && r.main != OnBranch(branch)
    ensures var s := MergeBranch(r, Main, branch, merge).0;
            branch in s.branches && s.branches[branch] == r.branches[branch]
  {
    hide MergeBranch;
    MergeBranchMovesOnlyHead(r, Main, branch, merge);
    var s := MergeBranch(r, Main, branch, merge).0;
    if r.main.OnBranch? {
      assert branch in r.branches - {r.main.name};
    }
  }

  // The stages of a merge that removed its worktree and branch, each of which succeeded.
  lemma DoneStages(r: Repo, caller: Path, path: Path, base: Option<Base>,
                   clean: bool, checkoutFails: bool, merge: MergeEnv, remove: RemoveEnv)
    requires Valid(r)
    requires MergeWorktree(r, caller, path, base, true, clean, checkoutFails, merge, remove).1.Done?
    ensures CurrentBranch(r, path).Some? && CurrentBranch(r, path).value in r.branches && BaseOf(r, base).Some?
    ensures var branch, into := CurrentBranch(r, path).value, BaseOf(r, base).value;
            var (based, switched) := SwitchTo(r, into, checkoutFails);
            && switched.Done? && Valid(based) && based == r.(main := based.main)
            && based.main != OnBranch(branch) && (based.main.OnBranch? <==> IsBranchBase(r, base))
            && var (merged, outcome) := MergeBranch(based, Main, branch, merge);
            && outcome.Done?
            && var (pruned, removed) := RemoveLinked(merged, path, remove.prune);
            && removed.Done? && DeleteBranch(pruned, branch, remove.deleteFails).1.Done?
            && branch !in DeleteBranch(pruned, branch, remove.deleteFails).0.branches
            && MergeWorktree(r, caller, path, base, true, clean, checkoutFails, merge, remove) ==
               DeleteBranch(pruned, branch, remove.deleteFails)
  {
    hide Reaches, MergeBranch, ValidDirs, Enclosing;
    var branch, into := CurrentBranch(r, path).value, BaseOf(r, base).value;
    SwitchForward(r, into, checkoutFails);
    var based := SwitchTo(r, into, checkoutFails).0;
    MergeIntoMain(based, branch, merge);
    assert path in r.linked && r.linked[path] == OnBranch(branch) by {
      EnclosingSelf(r, path);
    }
    assert CheckedOutLinked(r, branch);
    assert based.main != OnBranch(branch) && (based.main.OnBranch? <==> IsBranchBase(r, base));
    var (merged, outcome) := MergeBranch(based, Main, branch, merge);
    assert outcome.Done?;
  }

  lemma EnclosingSelf(r: Repo, path: Path)
    ensures path in r.linked && path in r.dirs ==> Discover(r, path) == Some(Linked(path))
  {
  }

  /** The base is spelled as a branch, or the main worktree is on one already. */
  predicate IsBranchBase(r: Repo, base: Option<Base>) {
    BaseOf(r, base).Some? && !BaseOf(r, base).value.FullTag?
  }

  lemma SameContained(r: Repo, s: Repo, b: string)
    requires s.branches == r.branches && s.history == r.history
    ensures ContainedElsewhere(s, b) <==> ContainedElsewhere(r, b)
  {
  }

  lemma DeletionAfterCover(r: Repo, t: Repo, b: string, fails: bool)
    requires Valid(r) && Forward(r, t) && KeepsBranches(r, t)
    requires b in r.branches && t.branches[b] == r.branches[b] && b !in DeleteBranch(t, b, fails).0.branches
    ensures LosesNothing(r, DeleteBranch(t, b, fails).0) <==> ContainedElsewhere(t, b)
  {
    var s := DeleteBranch(t, b, fails).0;
    ForwardCovers(r, t);
    CoveringLosesNothing(r, t);
    DeleteBranchLosesNothingIff(t, b, fails);
    if LosesNothing(r, s) {
      assert Live(r, r.branches[b]);
      var other :| other in s.branches && Reaches(s.history, s.branches[other], r.branches[b]);
      assert other in t.branches && other != b;
    }
  }

  /** A merge that fails deletes no branch, wherever it fails. */
  lemma FailedMergeDeletesNoBranch(r: Repo, caller: Path, path: Path, base: Option<Base>, removeAfter: bool,
                                   clean: bool, checkoutFails: bool, merge: MergeEnv, remove: RemoveEnv)
    requires Valid(r)
    requires MergeWorktree(r, caller, path, base, removeAfter, clean, checkoutFails, merge, remove).1.Failed?
    ensures var s := MergeWorktree(r, caller, path, base, removeAfter, clean, checkoutFails, merge, remove).0;
            Forward(r, s) && KeepsBranches(r, s)
  {
    var t, branch := MergeWorktreeStages(r, caller, path, base, removeAfter, clean, checkoutFails, merge, remove);
  }

  /** Nor does a removal that fails. */
  lemma FailedRemovalDeletesNoBranch(r: Repo, source: Path, child: Path, childBranch: string,
                                     expectedPath: Path, clean: bool, env: RemoveEnv)
    requires Valid(r)
    requires RemoveMerged(r, source, child, childBranch, expectedPath, clean, env).1.Failed?
    ensures RemoveMerged(r, source, child, childBranch, expectedPath, clean, env).0.branches == r.branches
  {
  }

  /** After a merge of `branch` the ancestry test holds exactly when it held before or what the branch's name
      resolved to contains the branch's tip; so it always holds when no tag has that name. */
  ghost predicate MergedIff(r: Repo, s: Repo, source: Path, branch: string) {
    && branch in r.branches && AnnotatedCommit(r, branch).Some?
    && (AncestryTest(s, source, branch) <==>
          || AncestryTest(r, source, branch)
          || Reaches(r.history, AnnotatedCommit(r, branch).value, r.branches[branch]))
    && (branch !in r.tags ==> AncestryTest(s, source, branch))
  }

  /** A successful merge of a child leaves its source on its expected branch, ready for the removal check exactly
      when the merged commit contains the child's tip. */
  lemma MergeIntoSourceMakesRemovable(r: Repo, source: Path, child: Path, expected: Option<string>,
                                      clean: bool, merge: MergeEnv)
    requires Valid(r)
    ensures var (s, outcome) := MergeIntoSource(r, source, child, expected, clean, merge);
            && Forward(r, s) && KeepsBranches(r, s)
            && (outcome.Done? ==>
                  && CurrentBranch(r, child).Some?
                  && CurrentBranch(s, source) == CurrentBranch(r, source)
                  && (expected.Some? && expected.value != "" ==> CurrentBranch(s, source) == expected)
                  && MergedIff(r, s, source, CurrentBranch(r, child).value))
  {
    hide Forward, KeepsBranches, MovesOnlyHead, MergeBranch, CurrentBranch, HeadReaches, AncestryTest, MergedIff;
    ForwardSelf(r);
    var place := Discover(r, source);
    var branch := CurrentBranch(r, child);
    if place.Some? && branch.Some? {
      var s := MergeBranch(r, place.value, branch.value, merge).0;
      MergeBranchForward(r, place.value, branch.value, merge);
      MergeBranchMovesOnlyHead(r, place.value, branch.value, merge);
      var sourceBranch := CurrentBranch(r, source);
      if sourceBranch.Some? && sourceBranch != branch {
        SourceStays(r, source, sourceBranch.value, s);
        if MergeBranch(r, place.value, branch.value, merge).1.Done? {
          MergedPassesTestIff(r, source, sourceBranch.value, child, branch.value, merge);
        }
      }
    }
  }

  lemma SourceStays(r: Repo, source: Path, sourceBranch: string, s: Repo)
    requires Valid(r) && CurrentBranch(r, source) == Some(sourceBranch)
    requires MovesOnlyHead(r, Discover(r, source).value, s) && KeepsBranches(r, s)
    ensures CurrentBranch(s, source) == Some(sourceBranch) && Discover(s, source) == Discover(r, source)
    ensures forall b :: b in r.branches && b != sourceBranch ==> b in s.branches && s.branches[b] == r.branches[b]
  {
    forall b | b in r.branches && b != sourceBranch
      ensures b in s.branches && s.branches[b] == r.branches[b]
    {
      assert b in r.branches - {sourceBranch};
    }
  }

  lemma MergedPassesTestIff(r: Repo, source: Path, sourceBranch: string, child: Path, branch: string, merge: MergeEnv)
    requires Valid(r) && CurrentBranch(r, source) == Some(sourceBranch) && sourceBranch != branch
    requires CurrentBranch(r, child) == Some(branch)
    requires MergeBranch(r, Discover(r, source).value, branch, merge).1.Done?
    ensures MergedIff(r, MergeBranch(r, Discover(r, source).value, branch, merge).0, source, branch)
  {
    hide Reaches, MergeCommits, MovesOnlyHead, ValidDirs, Enclosing;
    var place := Discover(r, source).value;
    var s := MergeBranch(r, place, branch, merge).0;
    var ours, theirs := HeadCommit(r, HeadOf(r, place)).value, AnnotatedCommit(r, branch).value;
    MergeBranchForward(r, place, branch, merge);
    MergeBranchMovesOnlyHead(r, place, branch, merge);
    SourceStays(r, source, sourceBranch, s);
    MergedAncestors(r, place, ours, theirs, merge, r.branches[branch]);
    ReachesItself(r.history, r.branches[branch]);
  }

  lemma ReachesItself(h: History, c: nat)
    requires c < |h|
    ensures Reaches(h, c, c)
  {
  }

  /** The guards of a removal: the source lies in a worktree other than the child, and that is on a branch. */
  ghost predicate RemoveGuard(r: Repo, source: Path, child: Path) {
    && Discover(r, source).Some? && Discover(r, source) != Some(Linked(child))
    && HeadOf(r, Discover(r, source).value).OnBranch?
  }

  // Pruning the child leaves the HEAD of the source's worktree and every branch alone.
  lemma PruneKeepsSource(r: Repo, source: Path, child: Path, env: RemoveEnv)
    requires Valid(r) && child in r.linked
    ensures var t := PruneWorktree(r, child, env.prune).0;
            && Forward(r, t) && KeepsBranches(r, t) && t.branches == r.branches && t.history == r.history
            && (RemoveGuard(r, source, child) ==>
                  var place := Discover(r, source).value;
                  IsPlace(t, place) && HeadOf(t, place) == HeadOf(r, place))
  {
    ForwardSelf(r);
    WithoutTreeForward(r, child);
  }

  lemma RemoveMergedForward(r: Repo, source: Path, child: Path, childBranch: string,
                            expectedPath: Path, clean: bool, env: RemoveEnv)
    requires Valid(r)
    ensures Forward(r, RemoveMerged(r, source, child, childBranch, expectedPath, clean, env).0)
  {
    hide Forward, EnsureRemovable;
    ForwardSelf(r);
    if child in r.linked {
      PruneKeepsSource(r, source, child, env);
    }
    var pruned := if child in r.linked then PruneWorktree(r, child, env.prune).0 else r;
    PruneThenDelete(r, pruned, childBranch, env.deleteFails);
  }

  lemma PruneThenDelete(r: Repo, pruned: Repo, b: string, fails: bool)
    requires Valid(r) && Forward(r, pruned) && KeepsBranches(r, pruned)
    ensures Forward(r, DeleteBranch(pruned, b, fails).0)
  {
    hide DeleteBranch;
    DeleteForward(pruned, b, fails);
    ForwardChain(r, pruned, DeleteBranch(pruned, b, fails).0);
  }

  lemma RemoveMergedLosesNothing(r: Repo, source: Path, child: Path, childBranch: string,
                                 expectedPath: Path, clean: bool, env: RemoveEnv)
    requires Valid(r) && RemoveGuard(r, source, child)
    ensures LosesNothing(r, RemoveMerged(r, source, child, childBranch, expectedPath, clean, env).0)
  {
    if EnsureRemovable(r, source, child, childBranch, expectedPath, clean).Done? {
      var pruned := if child in r.linked then PruneWorktree(r, child, env.prune).0 else r;
      if child in r.linked {
        PruneKeepsSource(r, source, child, env);
      }
      var keep := HeadOf(r, Discover(r, source).value).name;
      assert CheckedOut(pruned, keep);
      DeleteBranchGuarded(pruned, childBranch, keep, env.deleteFails);
    }
  }

  /** A removal that reports success loses nothing exactly when some other branch contains the child's tip. */
  lemma RemoveMergedLosesNothingIff(r: Repo, source: Path, child: Path, childBranch: string,
                                    expectedPath: Path, clean: bool, env: RemoveEnv)
    requires Valid(r) && childBranch in r.branches
    requires RemoveMerged(r, source, child, childBranch, expectedPath, clean, env).1.Done?
    ensures var s := RemoveMerged(r, source, child, childBranch, expectedPath, clean, env).0;
            LosesNothing(r, s) <==> ContainedElsewhere(r, childBranch)
  {
    var pruned := if child in r.linked then PruneWorktree(r, child, env.prune).0 else r;
    DeleteBranchLosesNothingIff(pruned, childBranch, env.deleteFails);
    assert forall c :: Live(r, c) <==> Live(pruned, c);
  }

  /** Removal without a merged check deletes at most the branch of the removed worktree, and a branch so
      deleted takes commits with it exactly when no other branch contains its tip. */
  lemma RemoveWorktreeLosesNothingIff(r: Repo, caller: Path, path: Path, removeBranch: bool, env: RemoveEnv)
    requires Valid(r)
    ensures var (s, outcome) := RemoveWorktree(r, caller, path, removeBranch, env);
            && (s.branches != r.branches ==>
                  && removeBranch && outcome.Done? && CurrentBranch(r, path).Some?
                  && CurrentBranch(r, path) != CurrentBranch(r, r.root)
                  && s.branches == r.branches - {CurrentBranch(r, path).value}
                  && (LosesNothing(r, s) <==> ContainedElsewhere(r, CurrentBranch(r, path).value)))
            && (s.branches == r.branches ==> LosesNothing(r, s))
  {
    hide ContainedElsewhere, Valid;
    var s := RemoveWorktree(r, caller, path, removeBranch, env).0;
    assert s.history == r.history;
    if s.branches == r.branches {
      assert forall c :: Live(r, c) <==> Live(s, c);
    } else {
      var b := CurrentBranch(r, path).value;
      hide Live, LosesNothing;
      if LosesNothing(r, s) {
        LossIfNotContained(r, b, s);
      }
      if ContainedElsewhere(r, b) {
        NoLossIfContained(r, b, s);
      }
    }
  }

  /** A removal that succeeded can be repeated: it succeeds again and changes nothing, exactly when the source
      did not lie inside the removed directory; if it did, it is no place in a repository any more. */
  lemma RemoveMergedTwice(r: Repo, source: Path, child: Path, childBranch: string,
                          expectedPath: Path, clean: bool, env: RemoveEnv, clean': bool, env': RemoveEnv)
    requires Valid(r)
    requires RemoveMerged(r, source, child, childBranch, expectedPath, clean, env).1.Done?
    ensures var s := RemoveMerged(r, source, child, childBranch, expectedPath, clean, env).0;
            && (forall d :: d in s.dirs ==> !(child <= d)) && child !in s.linked && childBranch !in s.branches
            && Valid(s)
            && RemoveMerged(s, source, child, childBranch, expectedPath, clean', env') ==
               (s, if child <= source then Failed(NotARepository) else Done)
  {
    hide Reaches;
    RemoveMergedForward(r, source, child, childBranch, expectedPath, clean, env);
    var s := RemoveMerged(r, source, child, childBranch, expectedPath, clean, env).0;
    forall d | d in s.dirs
      ensures !(child <= d)
    {
      if child <= d && d in r.dirs {
        PrefixInDirs(r, d, child);
      }
    }
    if !(child <= source) {
      EnclosingStays(r.linked.Keys, r.root, child, source);
      assert s.linked.Keys == r.linked.Keys - {child};
    }
  }

  // ---- what each operation promises its caller ----

  lemma CreateLosesNothing(r: Repo, caller: Path, dest: Path, branch: string, base: Option<string>, env: CreateEnv)
    requires Valid(r)
    ensures LosesNothing(r, CreateWorktree(r, caller, dest, branch, base, env).0)
  {
    CreateForward(r, caller, dest, branch, base, env);
    CoveringLosesNothing(r, CreateWorktree(r, caller, dest, branch, base, env).0);
  }

  lemma MergeWorktreePromises(r: Repo, caller: Path, path: Path, base: Option<Base>, removeAfter: bool,
                              clean: bool, checkoutFails: bool, merge: MergeEnv, remove: RemoveEnv)
    requires Valid(r)
    ensures var (s, out) := MergeWorktree(r, caller, path, base, removeAfter, clean, checkoutFails, merge, remove);
            && Forward(r, s)
            && ((removeAfter ==> MergeGuard(r, path, base)) ==> LosesNothing(r, s))
            && (out.Failed? ==> KeepsBranches(r, s))
  {
    hide MergeWorktree, Forward, LosesNothing, KeepsBranches;
    MergeWorktreeForward(r, caller, path, base, removeAfter, clean, checkoutFails, merge, remove);
    if removeAfter ==> MergeGuard(r, path, base) {
      MergeWorktreeLosesNothing(r, caller, path, base, removeAfter, clean, checkoutFails, merge, remove);
    }
    if MergeWorktree(r, caller, path, base, removeAfter, clean, checkoutFails, merge, remove).1.Failed? {
      FailedMergeDeletesNoBranch(r, caller, path, base, removeAfter, clean, checkoutFails, merge, remove);
    }
  }

  lemma RemoveMergedPromises(r: Repo, source: Path, child: Path, childBranch: string,
                             expectedPath: Path, clean: bool, env: RemoveEnv)
    requires Valid(r)
    ensures var (s, out) := RemoveMerged(r, source, child, childBranch, expectedPath, clean, env);
            && Forward(r, s)
            && (RemoveGuard(r, source, child) ==> LosesNothing(r, s))
            && (out.Done? && childBranch in r.branches ==> (LosesNothing(r, s) <==> ContainedElsewhere(r, childBranch)))
            && (out.Failed? ==> s.branches == r.branches)
  {
    hide RemoveMerged, Forward, LosesNothing, ContainedElsewhere, RemoveGuard;
    RemoveMergedForward(r, source, child, childBranch, expectedPath, clean, env);
    if RemoveGuard(r, source, child) {
      RemoveMergedLosesNothing(r, source, child, childBranch, expectedPath, clean, env);
    }
    if RemoveMerged(r, source, child, childBranch, expectedPath, clean, env).1.Failed? {
      FailedRemovalDeletesNoBranch(r, source, child, childBranch, expectedPath, clean, env);
    } else if childBranch in r.branches {
      RemoveMergedLosesNothingIff(r, source, child, childBranch, expectedPath, clean, env);
    }
  }

  // ---- runs ----

  datatype Op =
    | Create(caller: Path, dest: Path, branch: string, from: Option<string>, createEnv: CreateEnv)
    | Commit(at: Path)
    | Merge(caller: Path, path: Path, base: Option<Base>, removeAfter: bool,
            clean: bool, checkoutFails: bool, merge: MergeEnv, remove: RemoveEnv)
    | IntoSource(source: Path, child: Path, expected: Option<string>, clean: bool, merge: MergeEnv)
    | Remove(source: Path, child: Path, childBranch: string, expectedPath: Path, clean: bool, remove: RemoveEnv)
    | MakeDir(dir: Path)
    | RemoveDir(dir: Path)

  function Apply(r: Repo, op: Op): Repo
    requires Valid(r)
  {
    match op
    case Create(caller, dest, branch, from, env) => CreateWorktree(r, caller, dest, branch, from, env).0
    case Commit(at) => CommitIn(r, at).0
    case Merge(caller, path, base, removeAfter, clean, checkoutFails, merge, remove) =>
      MergeWorktree(r, caller, path, base, removeAfter, clean, checkoutFails, merge, remove).0
    case IntoSource(source, child, expected, clean, merge) =>
      MergeIntoSource(r, source, child, expected, clean, merge).0
    case Remove(source, child, childBranch, expectedPath, clean, remove) =>
      RemoveMerged(r, source, child, childBranch, expectedPath, clean, remove).0
    case MakeDir(dir) => MakeDirectory(r, dir)
    case RemoveDir(dir) => RemoveDirectory(r, dir)
  }

  /** What a caller can check before a step that may delete a branch. */
  ghost predicate Guard(r: Repo, op: Op) {
    match op
    case Merge(_, path, base, removeAfter, _, _, _, _) => removeAfter ==> MergeGuard(r, path, base)
    case Remove(source, child, _, _, _, _) => RemoveGuard(r, source, child)
    case _ => true
  }

  lemma ApplyForward(r: Repo, op: Op)
    requires Valid(r)
    ensures Forward(r, Apply(r, op))
  {
    match op
    case Create(caller, dest, branch, from, env) => CreateForward(r, caller, dest, branch, from, env);
    case Commit(at) => CommitForward(r, at);
    case Merge(caller, path, base, removeAfter, clean, checkoutFails, merge, remove) =>
      MergeWorktreeForward(r, caller, path, base, removeAfter, clean, checkoutFails, merge, remove);
    case IntoSource(source, child, expected, clean, merge) =>
      MergeIntoSourceMakesRemovable(r, source, child, expected, clean, merge);
    case Remove(source, child, childBranch, expectedPath, clean, remove) =>
      RemoveMergedForward(r, source, child, childBranch, expectedPath, clean, remove);
    case MakeDir(dir) => DirectoriesForward(r, dir);
    case RemoveDir(dir) => DirectoriesForward(r, dir);
  }

  lemma DirectoriesForward(r: Repo, dir: Path)
    requires Valid(r)
    ensures Forward(r, MakeDirectory(r, dir)) && KeepsBranches(r, MakeDirectory(r, dir))
    ensures Forward(r, RemoveDirectory(r, dir)) && KeepsBranches(r, RemoveDirectory(r, dir))
  {
    ForwardSelf(r);
    WithDirectoryForward(r, dir);
    if !(dir <= r.root) {
      WithoutTreeForward(r, dir);
    }
  }

  lemma ApplyLosesNothing(r: Repo, op: Op)
    requires Valid(r) && Guard(r, op)
    ensures LosesNothing(r, Apply(r, op))
  {
    match op
    case Create(caller, dest, branch, from, env) =>
      CreateForward(r, caller, dest, branch, from, env);
      CoveringLosesNothing(r, Apply(r, op));
    case Commit(at) =>
      CommitForward(r, at);
      CoveringLosesNothing(r, Apply(r, op));
    case Merge(caller, path, base, removeAfter, clean, checkoutFails, merge, remove) =>
      MergeWorktreeLosesNothing(r, caller, path, base, removeAfter, clean, checkoutFails, merge, remove);
    case IntoSource(source, child, expected, clean, merge) =>
      MergeIntoSourceMakesRemovable(r, source, child, expected, clean, merge);
      CoveringLosesNothing(r, Apply(r, op));
    case Remove(source, child, childBranch, expectedPath, clean, remove) =>
      RemoveMergedLosesNothing(r, source, child, childBranch, expectedPath, clean, remove);
    case MakeDir(dir) =>
      DirectoriesForward(r, dir);
      CoveringLosesNothing(r, Apply(r, op));
    case RemoveDir(dir) =>
      DirectoriesForward(r, dir);
      CoveringLosesNothing(r, Apply(r, op));
  }

  ghost function Run(r: Repo, ops: seq<Op>): (s: Repo)
    requires Valid(r)
    ensures Valid(s)
    decreases |ops|
  {
    if ops == [] then r
    else
      ApplyForward(r, ops[0]);
      Run(Apply(r, ops[0]), ops[1..])
  }

  ghost predicate GuardedRun(r: Repo, ops: seq<Op>)
    requires Valid(r)
    decreases |ops|
  {
    ops != [] ==>
      && Guard(r, ops[0])
      && (ApplyForward(r, ops[0]); GuardedRun(Apply(r, ops[0]), ops[1..]))
  }

  /** Over every guarded run, every commit reachable from a local branch stays reachable from one. */
  lemma {:induction false} NoCommitLost(r: Repo, ops: seq<Op>)
    requires Valid(r) && GuardedRun(r, ops)
    ensures LosesNothing(r, Run(r, ops))
    decreases |ops|
  {
    if ops != [] {
      ApplyForward(r, ops[0]);
      ApplyLosesNothing(r, ops[0]);
      NoCommitLost(Apply(r, ops[0]), ops[1..]);
    }
  }

  /** Along the run the source stays on its branch and the child's tip does not move. */
  ghost predicate Steady(r: Repo, ops: seq<Op>, source: Path, sourceBranch: string, childBranch: string, tip: nat)
    requires Valid(r)
    decreases |ops|
  {
    && CurrentBranch(r, source) == Some(sourceBranch)
    && childBranch in r.branches && r.branches[childBranch] == tip
    && (ops != [] ==>
          (ApplyForward(r, ops[0]);
           Steady(Apply(r, ops[0]), ops[1..], source, sourceBranch, childBranch, tip)))
  }

  /** Once it holds, the ancestry test keeps holding until the child's branch moves. */
  lemma {:induction false} AncestryTestPersists(r: Repo, ops: seq<Op>, source: Path, sourceBranch: string,
                                                childBranch: string, tip: nat)
    requires Valid(r) && Steady(r, ops, source, sourceBranch, childBranch, tip)
    requires AncestryTest(r, source, childBranch)
    ensures AncestryTest(Run(r, ops), source, childBranch)
    decreases |ops|
  {
    if ops != [] {
      var s := Apply(r, ops[0]);
      ApplyForward(r, ops[0]);
      ReachesGrown(r.history, s.history, r.branches[sourceBranch], tip);
      ReachesTransitive(s.history, s.branches[sourceBranch], r.branches[sourceBranch], tip);
      AncestryTestPersists(s, ops[1..], source, sourceBranch, childBranch, tip);
    }
  }
}
