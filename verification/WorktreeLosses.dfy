/** Inputs on which the guards of a lossless removal matter. */
module WorktreeLosses {
  import opened CommitGraph
  import opened Wrappers
  import opened WorktreeModel
  import opened WorktreeRuns

  const WORKS := RemoveEnv(PruneWorks, false)
  const MERGES := MergeEnv(false, NoFault)

  const MAIN := OnBranch("main")

  const ROOT: Path := ["r"]
  const CHILD: Path := ["r", ".codux", "worktrees", "feat"]
  const BELOW: Path := ["r", ".codux", "worktrees", "feat", "src"]

  /** A repository with main at commit 0 and one linked worktree whose branch is one commit ahead. */
  function OneAhead(main: Head, tags: map<string, Tag>): (r: Repo)
    requires (main.Detached? ==> main.commit < 2) && forall t :: t in tags ==> tags[t].commit < 2
    ensures Valid(r)
  {
    assert BELOW[..1] == ROOT && !(CHILD <= ROOT);
    PrefixesAreClosed(BELOW);
    Repo([[], [0]], map["main" := 0, "feat" := 1], tags, ROOT, main, map[CHILD := OnBranch("feat")], Prefixes(BELOW))
  }

  lemma PrefixesAreClosed(path: Path)
    ensures forall d, k :: d in Prefixes(path) && 0 <= k <= |d| ==> d[..k] in Prefixes(path)
  {
    forall d, k | d in Prefixes(path) && 0 <= k <= |d|
      ensures d[..k] in Prefixes(path)
    {
      var n :| 0 <= n <= |path| && d == path[..n];
      assert d[..k] == path[..k];
    }
  }

  // Which worktree each of the paths belongs to.
  lemma PathsBelong(r: Repo)
    requires r.root == ROOT && r.linked.Keys == {CHILD} && r.dirs == Prefixes(BELOW)
    ensures Discover(r, ROOT) == Some(Main)
    ensures Discover(r, CHILD) == Discover(r, BELOW) == Some(Linked(CHILD))
  {
    assert BELOW[..1] == ROOT && BELOW[..4] == CHILD && BELOW[..5] == BELOW;
    assert |CHILD| != |ROOT| && |BELOW| != |CHILD|;
  }

  lemma OneAheadAncestry(h: History)
    requires h == [[], [0]]
    ensures Reaches(h, 1, 0) && Reaches(h, 1, 1) && !Reaches(h, 0, 1)
  {
    assert Reaches(h, h[1][0], 0);
  }

  // A state without "feat" has lost the commit that only "feat" held.
  lemma FeatLosesItsCommit(r: Repo, s: Repo)
    requires r.history == s.history == [[], [0]]
    requires r.branches == map["main" := 0, "feat" := 1] && s.branches == map["main" := 0]
    ensures !LosesNothing(r, s)
  {
    hide Reaches;
    OneAheadAncestry(r.history);
    assert r.branches["feat"] == 1;
    assert Live(r, 1) && !Live(s, 1);
  }

  // Removing the worktree with its branch leaves main alone at commit 0.
  lemma FeatIsRemoved(r: Repo)
    requires (r.main.Detached? ==> r.main.commit < 2) && forall t :: t in r.tags ==> r.tags[t].commit < 2
    requires r == OneAhead(r.main, r.tags) && r.main != OnBranch("feat")
    ensures var (pruned, removed) := RemoveLinked(r, CHILD, PruneWorks);
            && removed.Done? && pruned == PruneWorktree(r, CHILD, PruneWorks).0
            && DeleteBranch(pruned, "feat", false).1.Done?
            && DeleteBranch(pruned, "feat", false).0.history == r.history
            && DeleteBranch(pruned, "feat", false).0.branches == map["main" := 0]
  {
    hide Enclosing, Prefixes;
  }

  /** A source inside the child passes the ancestry test, and removing the child loses its commit. */
  lemma RemoveFromItselfLosesCommits(source: Path)
    requires source == CHILD || source == BELOW
    ensures var r := OneAhead(MAIN, map[]);
            var (s, outcome) := RemoveMerged(r, source, CHILD, "feat", CHILD, true, WORKS);
            Valid(r) && outcome.Done? && !LosesNothing(r, s)
  {
    hide LosesNothing, DeleteBranch, Enclosing, Prefixes;
    var r := OneAhead(MAIN, map[]);
    PathsBelong(r);
    FeatIsRemoved(r);
    FeatLosesItsCommit(r, RemoveMerged(r, source, CHILD, "feat", CHILD, true, WORKS).0);
  }

  /** A source whose HEAD is detached at the child's tip does not keep the commit on any branch. */
  lemma DetachedSourceLosesCommits()
    ensures var r := OneAhead(Detached(1), map[]);
            var (s, outcome) := RemoveMerged(r, ROOT, CHILD, "feat", CHILD, true, WORKS);
            Valid(r) && outcome.Done? && !LosesNothing(r, s)
  {
    hide LosesNothing, DeleteBranch, Enclosing, Prefixes;
    var r := OneAhead(Detached(1), map[]);
    PathsBelong(r);
    FeatIsRemoved(r);
    FeatLosesItsCommit(r, RemoveMerged(r, ROOT, CHILD, "feat", CHILD, true, WORKS).0);
  }

  lemma TagIsMerged(r: Repo)
    requires r == OneAhead(MAIN, map["feat" := Tag(0, false)])
    ensures MergeBranch(r, Main, "feat", MERGES) == (r, Done)
  {
  }

  lemma DetachedHeadAdvances(r: Repo)
    requires r == OneAhead(MAIN, map["v1" := Tag(0, false)])
    ensures MergeBranch(r.(main := Detached(0)), Main, "feat", MERGES) == (r.(main := Detached(1)), Done)
  {
    hide Reaches, Prefixes;
    OneAheadAncestry(r.history);
  }

  /** A tag named like the branch is merged in its place, and the branch is deleted unmerged. */
  lemma TagHidingTheBranchLosesCommits()
    ensures var r := OneAhead(MAIN, map["feat" := Tag(0, false)]);
            var (s, outcome) := MergeWorktree(r, ROOT, CHILD, None, true, true, false, MERGES, WORKS);
            Valid(r) && outcome.Done? && !LosesNothing(r, s)
  {
    hide LosesNothing, MergeBranch, DeleteBranch, RemoveLinked, Enclosing, Prefixes;
    var r := OneAhead(MAIN, map["feat" := Tag(0, false)]);
    PathsBelong(r);
    TagIsMerged(r);
    FeatIsRemoved(r);
    FeatLosesItsCommit(r, MergeWorktree(r, ROOT, CHILD, None, true, true, false, MERGES, WORKS).0);
  }

  /** A base outside refs/heads detaches the main HEAD, so the merge moves no branch. */
  lemma DetachingBaseLosesCommits()
    ensures var r := OneAhead(MAIN, map["v1" := Tag(0, false)]);
            var (s, outcome) := MergeWorktree(r, ROOT, CHILD, Some(FullTag("v1")), true, true, false, MERGES, WORKS);
            Valid(r) && outcome.Done? && !LosesNothing(r, s)
  {
    hide LosesNothing, MergeBranch, DeleteBranch, RemoveLinked, Enclosing, Prefixes;
    var r := OneAhead(MAIN, map["v1" := Tag(0, false)]);
    PathsBelong(r);
    DetachedHeadAdvances(r);
    FeatIsRemoved(r.(main := Detached(1)));
    FeatLosesItsCommit(r, MergeWorktree(r, ROOT, CHILD, Some(FullTag("v1")), true, true, false, MERGES, WORKS).0);
  }

  /** A merge into the source of a branch that a tag hides reports success, and the child stays unremovable. */
  lemma TagHidingTheBranchStaysUnmerged()
    ensures var r := OneAhead(MAIN, map["feat" := Tag(0, false)]);
            var (s, outcome) := MergeIntoSource(r, ROOT, CHILD, None, true, MERGES);
            && Valid(r) && Valid(s) && outcome.Done? && !AncestryTest(s, ROOT, "feat")
            && RemoveMerged(s, ROOT, CHILD, "feat", CHILD, true, WORKS) == (s, Failed(NotMerged))
  {
    hide MergeBranch, Enclosing, Prefixes, Reaches;
    var r := OneAhead(MAIN, map["feat" := Tag(0, false)]);
    PathsBelong(r);
    TagIsMerged(r);
    OneAheadAncestry(r.history);
  }

  const OTHER: Path := ["r", ".codux", "worktrees", "x"]
  const ORPHAN: Path := ["r", ".codux", "worktrees", "feat", "orphan"]

  function WithUnborn(): (r: Repo)
    ensures Valid(r)
  {
    var one := OneAhead(MAIN, map[]);
    WithDirectoryForward(one, ORPHAN);
    assert |ORPHAN| > |ROOT|;
    WithDirectory(one, ORPHAN).(linked := one.linked[ORPHAN := OnBranch("x")])
  }

  /** A linked worktree on the unborn branch "x" holds on to it: creating a worktree for "x" fails and leaves the
      new branch behind, although nothing else goes wrong. */
  lemma UnbornWorktreeKeepsTheBranch()
    ensures var r := WithUnborn();
            var (s, outcome) := CreateWorktree(r, ROOT, OTHER, "x", None, CreateEnv(Prepared, false, false));
            outcome.Failed? && "x" !in r.branches && s.branches == r.branches["x" := 0]
  {
    hide Prefixes, AddWorktree, Valid, Enclosing;
    var r := WithUnborn();
    OtherIsFree(r);
    RootIsMain(r);
    assert r.linked[ORPHAN] == OnBranch("x");
    HeldIsRefused(WithDirectory(r, Parent(OTHER)), OTHER, "x", 0, CreateEnv(Prepared, false, false));
    CreateRollsBackIff(r, ROOT, OTHER, "x", None, CreateEnv(Prepared, false, false));
  }

  lemma HeldIsRefused(r: Repo, dest: Path, branch: string, start: nat, env: CreateEnv)
    requires CheckedOutLinked(r, branch)
    ensures AddWorktree(r, dest, branch, start, env).1.Failed?
  {
  }

  lemma RootIsMain(r: Repo)
    requires r.root == ROOT && ROOT in r.dirs && forall p :: p in r.linked ==> |p| > 1
    ensures Discover(r, ROOT) == Some(Main)
  {
  }

  lemma OtherIsFree(r: Repo)
    requires r.dirs == Prefixes(BELOW) + Prefixes(ORPHAN)
    ensures OTHER !in r.dirs && ROOT in r.dirs
  {
    assert BELOW[..1] == ROOT;
    assert OTHER[3] == "x";
    assert forall k :: 0 <= k <= 5 && |BELOW[..k]| == 4 ==> BELOW[..k][3] == "feat";
    assert forall k :: 0 <= k <= 5 && |ORPHAN[..k]| == 4 ==> ORPHAN[..k][3] == "feat";
  }

  /** A tag named like the branch that the caller is on decides where a new branch starts. */
  lemma TagMovesTheStart()
    ensures var r := OneAhead(MAIN, map["main" := Tag(1, false)]);
            && CurrentBranch(r, ROOT) == Some("main") && r.branches["main"] == 0
            && StartOf(r, ROOT, None) == Some(1)
  {
    hide Enclosing, Prefixes;
    PathsBelong(OneAhead(MAIN, map["main" := Tag(1, false)]));
  }
}
