/** When each worktree operation succeeds, exactly what it then leaves, and what its errors mean. */
module WorktreeOutcomes {
  import opened CommitGraph
  import opened Wrappers
  import opened WorktreeModel
  import opened WorktreeRuns

  // ---- names ----

  /** A tag of the name wins over the branch, and an annotated one cannot be merged. */
  lemma NamesResolve(r: Repo, name: string)
    ensures name in r.tags ==>
              && RevparseCommit(r, name) == Some(r.tags[name].commit)
              && AnnotatedCommit(r, name) == if r.tags[name].annotated then None else Some(r.tags[name].commit)
    ensures name !in r.tags ==>
              && RevparseCommit(r, name) == AnnotatedCommit(r, name)
              && RevparseCommit(r, name) == if name in r.branches then Some(r.branches[name]) else None
  {
  }

  /** The current branch of a path is the branch its worktree is on, when that exists. */
  lemma CurrentBranchIff(r: Repo, path: Path, b: string)
    ensures CurrentBranch(r, path) == Some(b) <==>
              && b in r.branches && b != "" && Discover(r, path).Some?
              && HeadOf(r, Discover(r, path).value) == OnBranch(b)
  {
  }

  /** A branch is checked out when the main worktree or a linked one is on it. */
  lemma CheckedOutIff(r: Repo, b: string)
    ensures CheckedOut(r, b) <==> r.main == OnBranch(b) || OnBranch(b) in r.linked.Values
  {
    if CheckedOutLinked(r, b) {
      var p :| p in r.linked && r.linked[p] == OnBranch(b);
    }
    if OnBranch(b) in r.linked.Values {
      var p :| p in r.linked && r.linked[p] == OnBranch(b);
    }
  }

  // ---- commits and merges ----

  /** A commit adds itself on top of the old HEAD, and nothing else. */
  lemma CommitAdds(r: Repo, path: Path)
    requires Valid(r)
    ensures var (s, out) := CommitIn(r, path);
            match Discover(r, path)
            case None => s == r && out == Failed(NotARepository)
            case Some(place) =>
              var old' := HeadCommit(r, HeadOf(r, place));
              && out.Done? && IsPlace(s, place) && MovesOnlyHead(r, place, s)
              && s.history == r.history + [if old'.Some? then [old'.value] else []]
              && HeadCommit(s, HeadOf(s, place)) == Some(|r.history|)
  {
    var place := Discover(r, path);
    if place.Some? {
      var head := HeadCommit(r, HeadOf(r, place.value));
      MoveHeadMovesOnlyHead(r, place.value, r.history + [if head.Some? then [head.value] else []], |r.history|);
    }
  }

  /** Where HEAD is after a merge: at the side that contains the other, else at a new commit with both parents. */
  predicate MergedAt(r: Repo, ours: nat, theirs: nat, h: History, head: nat) {
    if Reaches(r.history, ours, theirs) then h == r.history && head == ours
    else if Reaches(r.history, theirs, ours) then h == r.history && head == theirs
    else h == r.history + [[ours, theirs]] && head == |r.history|
  }

  /** A merge succeeds exactly when both sides resolve and they are merged already, or no call fails and they do not
      conflict; then HEAD is where it should be. A conflict needs two sides that both went on. */
  lemma MergeBranchIs(r: Repo, place: Place, name: string, env: MergeEnv)
    requires Valid(r) && IsPlace(r, place)
    ensures var (s, out) := MergeBranch(r, place, name, env);
            var ours, theirs := HeadCommit(r, HeadOf(r, place)), AnnotatedCommit(r, name);
            && IsPlace(s, place)
            && (theirs == None ==> (s, out) == (r, Failed(UnresolvedBranch)))
            && (theirs.Some? && ours == None ==> (s, out) == (r, Failed(GitFailure)))
            && (theirs.Some? && ours.Some? ==>
                  var ahead := Reaches(r.history, ours.value, theirs.value);
                  var behind := Reaches(r.history, theirs.value, ours.value);
                  && (out.Done? <==> ahead || (env.fault.NoFault? && (behind || !env.conflict)))
                  && (out == Failed(Conflicts) <==> !ahead && !behind && env.conflict)
                  && (out.Done? ==>
                        && HeadCommit(s, HeadOf(s, place)).Some?
                        && MergedAt(r, ours.value, theirs.value, s.history, HeadCommit(s, HeadOf(s, place)).value))
                  && (out.Done? && ahead ==> s == r))
            && (out.Failed? && env.fault != AfterRef ==> s == r)
  {
    hide Reaches, ValidDirs;
    var ours, theirs := HeadCommit(r, HeadOf(r, place)), AnnotatedCommit(r, name);
    if ours.Some? && theirs.Some? {
      MovedHeadIs(r, place, r.history, theirs.value);
      MovedHeadIs(r, place, r.history + [[ours.value, theirs.value]], |r.history|);
    }
  }

  /** A failed merge names something that is the case. */
  lemma MergeBranchSays(r: Repo, place: Place, name: string, env: MergeEnv)
    requires Valid(r) && IsPlace(r, place)
    ensures match MergeBranch(r, place, name, env).1
            case Done => true
            case Failed(UnresolvedBranch) => AnnotatedCommit(r, name) == None
            case Failed(Conflicts) => env.conflict
            case Failed(GitFailure) => HeadCommit(r, HeadOf(r, place)) == None || env.fault != NoFault
            case Failed(_) => false
  {
    hide Reaches, ValidDirs;
  }

  lemma MovedHeadIs(r: Repo, place: Place, h: History, c: nat)
    requires IsPlace(r, place)
    ensures var s := MoveHead(r.(history := h), place, c);
            IsPlace(s, place) && HeadCommit(s, HeadOf(s, place)) == Some(c) && s.history == h
  {
  }

  // ---- single steps ----

  /** Checking out puts the main HEAD on a branch that no linked worktree holds, or detaches it at a tag's commit. */
  lemma CheckoutIs(r: Repo, base: Base, fails: bool)
    ensures var (s, out) := CheckoutBranch(r, base, fails);
            && (out.Done? <==>
                  && !fails
                  && (if base.FullTag? then base.name in r.tags
                      else base.name in r.branches && OnBranch(base.name) !in r.linked.Values))
            && s == r.(main := if out.Failed? then r.main
                               else if base.FullTag? then Detached(r.tags[base.name].commit)
                               else OnBranch(base.name))
  {
    if !base.FullTag? {
      CheckedOutIff(r, base.name);
      if CheckedOutLinked(r, base.name) {
        var p :| p in r.linked && r.linked[p] == OnBranch(base.name);
      }
    }
  }

  /** Removing a worktree takes its metadata and everything in its directory, and nothing else. */
  lemma RemoveLinkedIs(r: Repo, path: Path, fault: PruneFault)
    ensures var (s, out) := RemoveLinked(r, path, fault);
            && (out.Done? <==> path in r.linked && fault.PruneWorks?)
            && (path !in r.linked ==> out == Failed(WorktreeNotFound))
            && (out.Done? || (fault.MetadataStays? && path in r.linked) ==>
                  forall d :: d in s.dirs <==> d in r.dirs && !(path <= d))
            && (out.Failed? && !(fault.MetadataStays? && path in r.linked) ==> s.dirs == r.dirs)
            && s == r.(dirs := s.dirs, linked := if out.Done? then r.linked - {path} else r.linked)
  {
  }

  /** A failed removal or deletion names something that is the case. */
  lemma RemovalSays(r: Repo, path: Path, fault: PruneFault, b: string, fails: bool)
    ensures RemoveLinked(r, path, fault).1 in {Done, Failed(WorktreeNotFound), Failed(GitFailure)}
    ensures RemoveLinked(r, path, fault).1 == Failed(WorktreeNotFound) ==> path !in r.linked
    ensures DeleteBranch(r, b, fails).1 in {Done, Failed(IsCheckedOut), Failed(GitFailure)}
    ensures DeleteBranch(r, b, fails).1 == Failed(IsCheckedOut) ==> CurrentBranch(r, r.root) == Some(b)
  {
  }

  /** Deleting succeeds for no name or a missing branch, changing nothing, and for an existing branch exactly when
      no worktree is on it and the call works; then that branch is gone. */
  lemma DeleteBranchIs(r: Repo, b: string, fails: bool)
    requires Valid(r)
    ensures var (s, out) := DeleteBranch(r, b, fails);
            && (out.Done? <==> b == "" || b !in r.branches || (!CheckedOut(r, b) && !fails))
            && s == r.(branches := if out.Done? && b != "" then r.branches - {b} else r.branches)
            && (b != "" && CurrentBranch(r, r.root) == Some(b) ==> out == Failed(IsCheckedOut))
  {
    RootIsMain(r);
    assert b !in r.branches ==> r.branches - {b} == r.branches;
  }

  // The root's own path belongs to the main worktree.
  lemma RootIsMain(r: Repo)
    requires ValidDirs(r)
    ensures Discover(r, r.root) == Some(Main)
  {
    assert r.root !in r.linked;
  }

  // ---- creation ----

  /** A new branch starts at the given base; without one at what the caller's branch name resolves to; on a detached
      caller at the main HEAD. It starts at the tip of the caller's branch exactly when no tag of that name points
      elsewhere. */
  lemma StartIs(r: Repo, caller: Path, base: Option<string>)
    requires Valid(r)
    ensures base.Some? && base.value != "" ==> StartOf(r, caller, base) == RevparseCommit(r, base.value)
    ensures !(base.Some? && base.value != "") ==>
              match CurrentBranch(r, caller)
              case None => StartOf(r, caller, base) == HeadCommit(r, r.main)
              case Some(b) =>
                b in r.branches
                && (StartOf(r, caller, base) == Some(r.branches[b]) <==>
                      (b in r.tags ==> r.tags[b].commit == r.branches[b]))
  {
  }

  /** A creation that is refused says why, in this order, and leaves everything as it was; none makes the destination's
      own directory unless it succeeds. */
  lemma CreateWorktreeRefuses(r: Repo, caller: Path, dest: Path, branch: string, base: Option<string>, env: CreateEnv)
    requires Valid(r)
    ensures var (s, out) := CreateWorktree(r, caller, dest, branch, base, env);
            && (branch == "" ==> out == Failed(EmptyBranchName))
            && (branch != "" && Discover(r, caller) == None ==> out == Failed(NotARepository))
            && (branch != "" && Discover(r, caller).Some? && HeadCommit(r, r.main) == None ==> out == Failed(NoCommits))
            && (branch != "" && Discover(r, caller).Some? && HeadCommit(r, r.main).Some? && dest in r.dirs ==>
                  out == Failed(PathExists))
            && (out.Failed? && out.error != GitFailure ==> s == r)
            && (out.Failed? && dest !in r.dirs ==> dest !in s.dirs)
  {
    hide StartOf, ValidDirs, Enclosing, Prefixes;
    TopExists(r);
    NotAmongParents(dest);
    if env.prepare.StoppedAt? && env.prepare.depth < |dest| {
      NotAmongShorter(dest, dest[..env.prepare.depth]);
    }
  }

  lemma TopExists(r: Repo)
    requires ValidDirs(r)
    ensures [] in r.dirs
  {
    assert r.root[..0] == [];
  }

  lemma NotAmongShorter(path: Path, shorter: Path)
    requires |shorter| < |path|
    ensures path !in Prefixes(shorter)
  {
  }

  lemma NotAmongParents(path: Path)
    ensures path != [] ==> path !in Prefixes(Parent(path)) && Parent(path) + [path[|path| - 1]] == path
    ensures [] in Prefixes(path)
  {
    assert path[..0] == [];
  }

  /** Creation succeeds exactly when every check passes, the start resolves, no worktree is on the branch and no call
      fails; then the worktree is on the branch, which starts there if it is new and keeps its tip if it is not. */
  lemma CreateWorktreeIs(r: Repo, caller: Path, dest: Path, branch: string, base: Option<string>, env: CreateEnv)
    requires Valid(r)
    ensures var (s, out) := CreateWorktree(r, caller, dest, branch, base, env);
            && (out.Done? <==>
                  && branch != "" && Discover(r, caller).Some? && HeadCommit(r, r.main).Some? && dest !in r.dirs
                  && env.prepare.Prepared? && StartOf(r, caller, base).Some?
                  && !CheckedOut(r, branch) && !env.addFails)
            && (out.Done? ==>
                  && s.branches == (if branch in r.branches then r.branches
                                    else r.branches[branch := StartOf(r, caller, base).value])
                  && s.linked == r.linked[dest := OnBranch(branch)]
                  && s == r.(branches := s.branches, linked := s.linked, dirs := r.dirs + Prefixes(dest)))
  {
    hide Prefixes, StartOf, ValidDirs, Enclosing;
    if StartOf(r, caller, base).Some? {
      AddWorktreeIs(WithDirectory(r, Parent(dest)), dest, branch, StartOf(r, caller, base).value, env);
      PrefixesOfParent(dest);
    }
  }

  lemma AddWorktreeIs(r: Repo, dest: Path, branch: string, start: nat, env: CreateEnv)
    ensures var (s, out) := AddWorktree(r, dest, branch, start, env);
            && (out.Done? <==> !CheckedOut(r, branch) && !env.addFails)
            && (out.Done? ==>
                  && s.branches == (if branch in r.branches then r.branches else r.branches[branch := start])
                  && s == r.(branches := s.branches, linked := r.linked[dest := OnBranch(branch)],
                             dirs := r.dirs + Prefixes(dest)))
  {
    hide Prefixes;
    var named := if branch in r.branches then r else r.(branches := r.branches[branch := start]);
    assert CheckedOut(named, branch) <==> CheckedOut(r, branch) by {
      assert named.linked == r.linked && named.main == r.main;
    }
  }

  // ---- merging a worktree ----

  /** The commit a base names. */
  function BaseTip(r: Repo, base: Base): Option<nat> {
    if base.FullTag? then (if base.name in r.tags then Some(r.tags[base.name].commit) else None)
    else if base.name in r.branches then Some(r.branches[base.name]) else None
  }

  /** Switching to a base leaves the main HEAD at the commit it names. */
  lemma SwitchIs(r: Repo, into: Base, fails: bool)
    requires Valid(r)
    ensures var (s, out) := SwitchTo(r, into, fails);
            && s == r.(main := s.main)
            && (out.Done? ==>
                  && s.main == (if into.FullTag? then Detached(BaseTip(s, into).value) else OnBranch(into.name))
                  && HeadCommit(s, s.main) == BaseTip(r, into) && BaseTip(r, into).Some?)
            && (out.Failed? ==> s == r)
  {
    hide Enclosing;
    CheckoutIs(r, into, fails);
    RootIsMain(r);
  }

  /** Nothing is checked out when the main worktree is on the base already. */
  lemma SwitchIsNeededIff(r: Repo, into: Base, fails: bool)
    ensures SwitchTo(r, into, fails) ==
            if CurrentBranch(r, r.root) == Some(into.name) && into == Short(into.name) then (r, Done)
            else CheckoutBranch(r, into, fails)
  {
  }

  /** The main HEAD is on the base and contains both the base's tip and the commit that the branch's name resolved
      to; no branch but the base has moved. Without removal every worktree and the branch are as they were; with it
      the worktree, its directory and its branch are gone. */
  ghost predicate IsMerged(r: Repo, s: Repo, path: Path, base: Option<Base>, removeAfter: bool) {
    && CurrentBranch(r, path).Some? && BaseOf(r, base).Some?
    && var branch, into := CurrentBranch(r, path).value, BaseOf(r, base).value;
    && AnnotatedCommit(r, branch).Some? && BaseTip(r, into).Some?
    && HeadReaches(s, Main, AnnotatedCommit(r, branch).value) && HeadReaches(s, Main, BaseTip(r, into).value)
    && (into.FullTag? <==> s.main.Detached?) && (!into.FullTag? ==> s.main == OnBranch(into.name))
    && (forall b :: b != branch && s.main != OnBranch(b) ==>
          (b in s.branches <==> b in r.branches) && (b in r.branches ==> s.branches[b] == r.branches[b]))
    && (!removeAfter ==>
          && s.linked == r.linked && s.dirs == r.dirs
          && (s.main != OnBranch(branch) ==> branch in s.branches && s.branches[branch] == r.branches[branch]))
    && (removeAfter ==>
          && path in r.linked && s.linked == r.linked - {path} && s.dirs == WithoutTree(r.dirs, path)
          && branch !in s.branches)
  }

  /** A merge of a worktree that succeeds, with or without removal, has merged it. */
  lemma MergeWorktreeMerges(r: Repo, caller: Path, path: Path, base: Option<Base>, removeAfter: bool,
                            clean: bool, checkoutFails: bool, merge: MergeEnv, remove: RemoveEnv)
    requires Valid(r)
    requires MergeWorktree(r, caller, path, base, removeAfter, clean, checkoutFails, merge, remove).1.Done?
    ensures var s := MergeWorktree(r, caller, path, base, removeAfter, clean, checkoutFails, merge, remove).0;
            IsMerged(r, s, path, base, removeAfter)
  {
    hide ValidDirs, Reaches, MergeBranch, SwitchTo, RemoveLinked, DeleteBranch, Enclosing;
    var branch, into := CurrentBranch(r, path).value, BaseOf(r, base).value;
    var based := SwitchTo(r, into, checkoutFails).0;
    SwitchForward(r, into, checkoutFails);
    SwitchIs(r, into, checkoutFails);
    SameNames(r, based, branch);
    var merged := MergeBranch(based, Main, branch, merge).0;
    MergeBranchForward(based, Main, branch, merge);
    MergeBranchMovesOnlyHead(based, Main, branch, merge);
    MovedBranches(based, merged);
    if removeAfter {
      var pruned := RemoveLinked(merged, path, remove.prune).0;
      RemoveLinkedIs(merged, path, remove.prune);
      RemoveLinkedForward(merged, path, remove.prune);
      DeleteBranchIs(pruned, branch, remove.deleteFails);
      DeletedKeepsHead(pruned, branch, remove.deleteFails, AnnotatedCommit(r, branch).value);
      DeletedKeepsHead(pruned, branch, remove.deleteFails, BaseTip(r, into).value);
    }
  }

  // Everything a caller can rely on.
  lemma MergeWorktreeGives(r: Repo, caller: Path, path: Path, base: Option<Base>, removeAfter: bool,
                           clean: bool, checkoutFails: bool, merge: MergeEnv, remove: RemoveEnv)
    requires Valid(r)
    ensures var (s, out) := MergeWorktree(r, caller, path, base, removeAfter, clean, checkoutFails, merge, remove);
            && Forward(r, s)
            && ((removeAfter ==> MergeGuard(r, path, base)) ==> LosesNothing(r, s))
            && (out.Failed? ==> KeepsBranches(r, s))
            && (out.Done? ==> IsMerged(r, s, path, base, removeAfter))
  {
    hide MergeWorktree, Forward, LosesNothing, KeepsBranches, MergeGuard, IsMerged;
    MergeWorktreePromises(r, caller, path, base, removeAfter, clean, checkoutFails, merge, remove);
    if MergeWorktree(r, caller, path, base, removeAfter, clean, checkoutFails, merge, remove).1.Done? {
      MergeWorktreeMerges(r, caller, path, base, removeAfter, clean, checkoutFails, merge, remove);
    }
  }

  lemma SameNames(r: Repo, s: Repo, name: string)
    requires s == r.(main := s.main)
    ensures AnnotatedCommit(s, name) == AnnotatedCommit(r, name)
  {
  }

  lemma MovedBranches(r: Repo, s: Repo)
    requires MovesOnlyHead(r, Main, s)
    ensures (if r.main.OnBranch? then s.main == r.main else s.main.Detached?) && s.linked == r.linked
    ensures forall b :: r.main != OnBranch(b) ==>
              (b in s.branches <==> b in r.branches) && (b in r.branches ==> s.branches[b] == r.branches[b])
  {
    match r.main
    case OnBranch(name) =>
      forall b | b != name
        ensures b in s.branches <==> b in r.branches
        ensures b in r.branches ==> s.branches[b] == r.branches[b]
      {
        assert b in s.branches <==> b in s.branches - {name};
        assert b in r.branches <==> b in r.branches - {name};
      }
    case Detached(_) =>
  }

  // Pruning and deleting another branch leave the main HEAD where it was.
  lemma DeletedKeepsHead(r: Repo, b: string, fails: bool, c: nat)
    requires Valid(r) && HeadReaches(r, Main, c) && DeleteBranch(r, b, fails).1.Done?
    ensures HeadReaches(DeleteBranch(r, b, fails).0, Main, c)
  {
    hide Reaches;
    DeleteBranchIs(r, b, fails);
    var s := DeleteBranch(r, b, fails).0;
    assert s.main == OnBranch(b) && b in r.branches && b != "" ==> CheckedOut(r, b);
  }

  /** No worktree but the one at `path` is on the branch. */
  predicate FreeBut(r: Repo, path: Path, b: string) {
    r.main != OnBranch(b) && forall p :: p in r.linked && p != path ==> r.linked[p] != OnBranch(b)
  }

  lemma FreeAfterRemoval(r: Repo, s: Repo, path: Path, b: string)
    requires s.main == r.main && s.linked == r.linked - {path}
    ensures CheckedOut(s, b) <==> !FreeBut(r, path, b)
  {
    if !FreeBut(r, path, b) && r.main != OnBranch(b) {
      var p :| p in r.linked && p != path && r.linked[p] == OnBranch(b);
      assert p in s.linked && s.linked[p] == OnBranch(b);
    }
  }

  /** A merge of a worktree succeeds exactly when every check passes, the base can be checked out, the merge into it
      succeeds and, with removal, the path is a linked worktree, both calls work and no other worktree is on its
      branch. */
  lemma MergeWorktreeDoneIff(r: Repo, caller: Path, path: Path, base: Option<Base>, removeAfter: bool,
                             clean: bool, checkoutFails: bool, merge: MergeEnv, remove: RemoveEnv)
    requires Valid(r)
    ensures MergeWorktree(r, caller, path, base, removeAfter, clean, checkoutFails, merge, remove).1.Done? <==>
              && Discover(r, caller).Some? && clean && CurrentBranch(r, path).Some? && BaseOf(r, base).Some?
              && var branch, into := CurrentBranch(r, path).value, BaseOf(r, base).value;
              && into != Short(branch)
              && var (based, switched) := SwitchTo(r, into, checkoutFails);
              && switched.Done? && Valid(based) && MergeBranch(based, Main, branch, merge).1.Done?
              && (removeAfter ==>
                    && path in r.linked && remove.prune.PruneWorks? && !remove.deleteFails
                    && FreeBut(based, path, branch))
  {
    hide ValidDirs, Reaches, MergeBranch, SwitchTo, RemoveLinked, DeleteBranch, CurrentBranch, CheckedOut, FreeBut;
    if Discover(r, caller).Some? && clean && CurrentBranch(r, path).Some? && BaseOf(r, base).Some? {
      var branch, into := CurrentBranch(r, path).value, BaseOf(r, base).value;
      CurrentBranchIff(r, path, branch);
      var based := SwitchTo(r, into, checkoutFails).0;
      SwitchForward(r, into, checkoutFails);
      SwitchIs(r, into, checkoutFails);
      MergeBranchForward(based, Main, branch, merge);
      MergeBranchMovesOnlyHead(based, Main, branch, merge);
      var merged := MergeBranch(based, Main, branch, merge).0;
      MovedBranches(based, merged);
      RemovalDoneIff(merged, path, branch, remove);
      SameFree(based, merged, path, branch);
      assert SwitchTo(r, into, checkoutFails).1.Done? && MergeBranch(based, Main, branch, merge).1.Done? && removeAfter
             && into != Short(branch) && RemoveLinked(merged, path, remove.prune).1.Done? ==>
               MergeWorktree(r, caller, path, base, removeAfter, clean, checkoutFails, merge, remove) ==
               DeleteBranch(RemoveLinked(merged, path, remove.prune).0, branch, remove.deleteFails);
    }
  }

  // The removal after a merge.
  lemma RemovalDoneIff(r: Repo, path: Path, branch: string, remove: RemoveEnv)
    requires Valid(r) && branch in r.branches && branch != ""
    ensures && RemoveLinked(r, path, remove.prune).1.Done?
            && DeleteBranch(RemoveLinked(r, path, remove.prune).0, branch, remove.deleteFails).1.Done? <==>
              path in r.linked && remove.prune.PruneWorks? && !remove.deleteFails && FreeBut(r, path, branch)
  {
    hide ValidDirs, RemoveLinked, DeleteBranch, CheckedOut, FreeBut;
    RemoveLinkedIs(r, path, remove.prune);
    RemoveLinkedForward(r, path, remove.prune);
    var pruned := RemoveLinked(r, path, remove.prune).0;
    if path in r.linked && remove.prune.PruneWorks? {
      FreeAfterRemoval(r, pruned, path, branch);
      DeleteBranchIs(pruned, branch, remove.deleteFails);
    }
  }

  lemma SameFree(r: Repo, s: Repo, path: Path, b: string)
    requires s.linked == r.linked && (if r.main.OnBranch? then s.main == r.main else s.main.Detached?)
    ensures FreeBut(s, path, b) <==> FreeBut(r, path, b)
  {
  }

  /** A failed merge of a worktree says why: each error names something that is the case. */
  lemma MergeWorktreeSays(r: Repo, caller: Path, path: Path, base: Option<Base>, removeAfter: bool,
                          clean: bool, checkoutFails: bool, merge: MergeEnv, remove: RemoveEnv)
    requires Valid(r)
    ensures match MergeWorktree(r, caller, path, base, removeAfter, clean, checkoutFails, merge, remove).1
            case Done => true
            case Failed(NotARepository) => Discover(r, caller) == None || Discover(r, path) == None
            case Failed(Dirty) => !clean
            case Failed(UnresolvedBranch) =>
              CurrentBranch(r, path) == None || AnnotatedCommit(r, CurrentBranch(r, path).value) == None
            case Failed(UnresolvedBase) => BaseOf(r, base) == None
            case Failed(SameBranch) =>
              CurrentBranch(r, path).Some? && BaseOf(r, base) == Some(Short(CurrentBranch(r, path).value))
            case Failed(Conflicts) => merge.conflict
            case Failed(WorktreeNotFound) => removeAfter && path !in r.linked
            case Failed(IsCheckedOut) => removeAfter
            case Failed(GitFailure) => true
            case Failed(_) => false
  {
    hide ValidDirs, Reaches, SwitchTo, MergeBranch, RemoveLinked, DeleteBranch, CurrentBranch, Discover, MovesOnlyHead,
      AnnotatedCommit;
    if CurrentBranch(r, path).Some? && BaseOf(r, base).Some? {
      var branch, into := CurrentBranch(r, path).value, BaseOf(r, base).value;
      var based := SwitchTo(r, into, checkoutFails).0;
      SwitchForward(r, into, checkoutFails);
      SwitchFails(r, into, checkoutFails);
      SameNames(r, based, branch);
      MergeBranchMovesOnlyHead(based, Main, branch, merge);
      MergeBranchSays(based, Main, branch, merge);
      var merged := MergeBranch(based, Main, branch, merge).0;
      MovedBranches(based, merged);
      RemovalSays(merged, path, remove.prune, branch, remove.deleteFails);
      RemovalSays(RemoveLinked(merged, path, remove.prune).0, path, remove.prune, branch, remove.deleteFails);
    }
  }

  /** Its refusals come in this order, and before anything has changed. */
  lemma MergeWorktreeRefuses(r: Repo, caller: Path, path: Path, base: Option<Base>, removeAfter: bool,
                             clean: bool, checkoutFails: bool, merge: MergeEnv, remove: RemoveEnv)
    requires Valid(r)
    ensures var result := MergeWorktree(r, caller, path, base, removeAfter, clean, checkoutFails, merge, remove);
            var found := Discover(r, caller).Some? && Discover(r, path).Some?;
            var branch, into := CurrentBranch(r, path), BaseOf(r, base);
            && (!found ==> result == (r, Failed(NotARepository)))
            && (found && !clean ==> result == (r, Failed(Dirty)))
            && (found && clean && branch == None ==> result == (r, Failed(UnresolvedBranch)))
            && (found && clean && branch.Some? && into == None ==> result == (r, Failed(UnresolvedBase)))
            && (found && clean && branch.Some? && into == Some(Short(branch.value)) ==>
                  result == (r, Failed(SameBranch)))
  {
    hide ValidDirs, Reaches, SwitchTo, MergeBranch, RemoveLinked, DeleteBranch, CurrentBranch, Discover;
  }

  lemma SwitchFails(r: Repo, into: Base, fails: bool)
    ensures SwitchTo(r, into, fails).1.Failed? ==> SwitchTo(r, into, fails).1 == Failed(GitFailure)
  {
  }

  // ---- merging into the source ----

  /** A merge into the source succeeds exactly when every check passes and the merge does; it is that merge, and the
      source HEAD then contains what the child's branch name resolved to. */
  lemma MergeIntoSourceIs(r: Repo, source: Path, child: Path, expected: Option<string>, clean: bool, merge: MergeEnv)
    requires Valid(r)
    ensures var (s, out) := MergeIntoSource(r, source, child, expected, clean, merge);
            var here, there := CurrentBranch(r, source), CurrentBranch(r, child);
            && (out.Done? <==>
                  && clean && here.Some? && there.Some? && here != there
                  && (expected.Some? && expected.value != "" ==> here == expected)
                  && MergeBranch(r, Discover(r, source).value, there.value, merge).1.Done?)
            && (out.Done? ==>
                  var place := Discover(r, source).value;
                  && s == MergeBranch(r, place, there.value, merge).0 && MovesOnlyHead(r, place, s)
                  && AnnotatedCommit(r, there.value).Some?
                  && HeadReaches(s, place, AnnotatedCommit(r, there.value).value)
                  && HeadReaches(s, place, r.branches[here.value]))
            && match out
               case Done => true
               case Failed(NotARepository) => Discover(r, child) == None || Discover(r, source) == None
               case Failed(Dirty) => !clean
               case Failed(UnresolvedBranch) => there == None || AnnotatedCommit(r, there.value) == None
               case Failed(UnresolvedBase) => here == None
               case Failed(SourceBranchChanged) => expected.Some? && here.Some? && here != expected
               case Failed(SameBranch) => here == there
               case Failed(Conflicts) => merge.conflict
               case Failed(GitFailure) => merge.fault != NoFault
               case Failed(_) => false
  {
    hide ValidDirs, Reaches, Enclosing, MergeBranch, MovesOnlyHead;
    var here, there := CurrentBranch(r, source), CurrentBranch(r, child);
    if here.Some? && there.Some? {
      MergeBranchSays(r, Discover(r, source).value, there.value, merge);
      MergeBranchForward(r, Discover(r, source).value, there.value, merge);
      MergeBranchMovesOnlyHead(r, Discover(r, source).value, there.value, merge);
    }
  }

  // ---- removing ----

  /** The removal check accepts exactly a fitting child that is contained in the source or gone; each refusal names
      something that is the case. */
  lemma EnsureRemovableIs(r: Repo, source: Path, child: Path, childBranch: string, expectedPath: Path, clean: bool)
    requires Valid(r)
    ensures var out := EnsureRemovable(r, source, child, childBranch, expectedPath, clean);
            && (out.Done? <==>
                  && childBranch != "" && Discover(r, source).Some? && child == expectedPath
                  && (child in r.dirs ==> child in r.linked && clean && CurrentBranch(r, child) == Some(childBranch))
                  && (if childBranch in r.branches then AncestryTest(r, source, childBranch) else child !in r.linked))
            && match out
               case Done => true
               case Failed(EmptyBranchName) => childBranch == ""
               case Failed(NotARepository) => Discover(r, source) == None
               case Failed(PathMismatch) => child != expectedPath
               case Failed(MetadataMissing) => child in r.dirs && child !in r.linked
               case Failed(Dirty) => child in r.dirs && !clean
               case Failed(UnresolvedBranch) => child in r.dirs && CurrentBranch(r, child) == None
               case Failed(ChildBranchChanged) =>
                 child in r.dirs && CurrentBranch(r, child).Some? && CurrentBranch(r, child).value != childBranch
               case Failed(BranchMissing) => childBranch !in r.branches && child in r.linked
               case Failed(NotMerged) =>
                 childBranch in r.branches && !AncestryTest(r, source, childBranch)
                 && HeadCommit(r, HeadOf(r, Discover(r, source).value)).Some?
               case Failed(GitFailure) =>
                 Discover(r, source).Some? && HeadCommit(r, HeadOf(r, Discover(r, source).value)) == None
               case Failed(_) => false
  {
    hide Reaches, Enclosing, ValidDirs;
  }

  /** A merged worktree is removed exactly when the check accepts it, the calls work and no other worktree is on its
      branch; then its metadata, its directory and its branch are gone, and nothing else. */
  lemma RemoveMergedIs(r: Repo, source: Path, child: Path, childBranch: string,
                       expectedPath: Path, clean: bool, env: RemoveEnv)
    requires Valid(r)
    ensures var (s, out) := RemoveMerged(r, source, child, childBranch, expectedPath, clean, env);
            && (out.Done? <==>
                  && EnsureRemovable(r, source, child, childBranch, expectedPath, clean).Done?
                  && (child in r.linked ==> env.prune.PruneWorks?)
                  && (childBranch in r.branches ==> FreeBut(r, child, childBranch) && !env.deleteFails))
            && (out.Done? ==>
                  s == r.(linked := r.linked - {child}, branches := r.branches - {childBranch},
                          dirs := if child in r.linked then WithoutTree(r.dirs, child) else r.dirs))
  {
    hide ValidDirs, Reaches, Enclosing, EnsureRemovable, DeleteBranch;
    EnsureRemovableIs(r, source, child, childBranch, expectedPath, clean);
    RemoveLinkedForward(r, child, env.prune);
    var pruned := if child in r.linked then PruneWorktree(r, child, env.prune).0 else r;
    assert child !in r.linked ==> r.linked - {child} == r.linked;
    if child !in r.linked || env.prune.PruneWorks? {
      FreeAfterRemoval(r, pruned, child, childBranch);
      DeleteBranchIs(pruned, childBranch, env.deleteFails);
    }
  }

  /** The unchecked removal takes a linked worktree and, when asked to, its branch, unless the main worktree is on it;
      it succeeds exactly when the path is a linked worktree, the calls work and no other worktree is on a branch to
      delete. */
  lemma RemoveWorktreeIs(r: Repo, caller: Path, path: Path, removeBranch: bool, env: RemoveEnv)
    requires Valid(r)
    ensures var (s, out) := RemoveWorktree(r, caller, path, removeBranch, env);
            var branch := CurrentBranch(r, path);
            var doomed := removeBranch && branch.Some? && branch != CurrentBranch(r, r.root);
            && (Discover(r, caller) == None ==> (s, out) == (r, Failed(NotARepository)))
            && (Discover(r, caller).Some? && path !in r.linked ==> (s, out) == (r, Failed(WorktreeNotFound)))
            && (out.Done? <==>
                  && Discover(r, caller).Some? && path in r.linked && env.prune.PruneWorks?
                  && (doomed ==> FreeBut(r, path, branch.value) && !env.deleteFails))
            && (out.Done? ==>
                  s == r.(linked := r.linked - {path}, dirs := WithoutTree(r.dirs, path),
                          branches := if doomed then r.branches - {branch.value} else r.branches))
  {
    hide ValidDirs, Enclosing, DeleteBranch;
    RemoveLinkedForward(r, path, env.prune);
    var pruned := RemoveLinked(r, path, env.prune).0;
    var branch := CurrentBranch(r, path);
    if branch.Some? && path in r.linked && env.prune.PruneWorks? {
      FreeAfterRemoval(r, pruned, path, branch.value);
      DeleteBranchIs(pruned, branch.value, env.deleteFails);
    }
  }

  // ---- directories ----

  /** Making a directory makes it and those above it; removing one takes everything inside. */
  lemma DirectoriesAre(r: Repo, path: Path)
    requires Valid(r)
    ensures (forall p :: p in r.linked && p <= path ==> p in r.dirs) ==>
              && path in MakeDirectory(r, path).dirs
              && forall d :: d in MakeDirectory(r, path).dirs <==> d in r.dirs || d <= path
    ensures (exists p :: p in r.linked && p <= path && p !in r.dirs) ==> MakeDirectory(r, path) == r
    ensures !(path <= r.root) ==> forall d :: d in RemoveDirectory(r, path).dirs <==> d in r.dirs && !(path <= d)
    ensures MakeDirectory(r, path).(dirs := r.dirs) == r == RemoveDirectory(r, path).(dirs := r.dirs)
  {
    assert path[..|path|] == path;
    forall d | d <= path
      ensures d in Prefixes(path)
    {
      assert d == path[..|d|];
    }
  }
}
