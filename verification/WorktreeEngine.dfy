/** The worktree engine itself: a repository whose refs, HEADs and directories are changed step by step,
    each operation proved to have exactly the effect of its model. */
module WorktreeEngine {
  import opened CommitGraph
  import opened Wrappers
  import Model = WorktreeModel
  import opened WorktreeModel
  import opened WorktreeRuns
  import opened WorktreeOutcomes

  class Repository {
    var history: History
    var branches: map<string, nat>
    var tags: map<string, Tag>
    var root: Path
    var main: Head
    var linked: map<Path, Head>
    var dirs: set<Path>

    function State(): Repo
      reads this
    {
      Repo(history, branches, tags, root, main, linked, dirs)
    }

    ghost predicate Valid()
      reads this
    {
      Model.Valid(State())
    }

    method MoveHead(place: Place, c: nat)
      requires IsPlace(State(), place)
      modifies this
      ensures State() == Model.MoveHead(old(State()), place, c)
    {
      match HeadOf(State(), place)
      case OnBranch(b) => branches := branches[b := c];
      case Detached(_) =>
        match place
        case Main => main := Detached(c);
        case Linked(path) => linked := linked[path := Detached(c)];
    }

    method CommitAt(place: Place, parents: seq<nat>)
      requires IsPlace(State(), place)
      requires forall i :: 0 <= i < |parents| ==> parents[i] < |history|
      modifies this
      ensures State() == AddCommit(old(State()), place, parents)
    {
      var c := |history|;
      history := history + [parents];
      MoveHead(place, c);
    }

    method FastForwardHead(place: Place, target: nat, fault: RefFault) returns (out: Outcome)
      requires IsPlace(State(), place)
      modifies this
      ensures (State(), out) == Model.FastForwardHead(old(State()), place, target, fault)
    {
      if fault == BeforeRef {
        return Failed(GitFailure);
      }
      MoveHead(place, target);
      return if fault == AfterRef then Failed(GitFailure) else Done;
    }

    method MergeBranch(place: Place, name: string, env: MergeEnv) returns (out: Outcome)
      requires Valid() && IsPlace(State(), place)
      modifies this
      ensures (State(), out) == Model.MergeBranch(old(State()), place, name, env)
      ensures Forward(old(State()), State()) && KeepsBranches(old(State()), State())
      ensures MovesOnlyHead(old(State()), place, State())
      ensures out == Failed(Conflicts) ==> State() == old(State())
    {
      MergeBranchForward(State(), place, name, env);
      MergeBranchMovesOnlyHead(State(), place, name, env);
      var annotated := AnnotatedCommit(State(), name);
      if annotated == None {
        return Failed(UnresolvedBranch);
      }
      var theirs := annotated.value;
      var head := HeadCommit(State(), HeadOf(State(), place));
      if head == None {
        return Failed(GitFailure);
      }
      var ours := head.value;
      if Reaches(history, ours, theirs) {
        return Done;
      }
      if Reaches(history, theirs, ours) {
        out := FastForwardHead(place, theirs, env.fault);
        return;
      }
      if env.conflict {
        return Failed(Conflicts);
      }
      if env.fault == BeforeRef {
        return Failed(GitFailure);
      }
      CommitAt(place, [ours, theirs]);
      return if env.fault == AfterRef then Failed(GitFailure) else Done;
    }

    method CheckoutBranch(base: Base, fails: bool) returns (out: Outcome)
      modifies this
      ensures (State(), out) == Model.CheckoutBranch(old(State()), base, fails)
    {
      if base.FullTag? {
        if base.name !in tags || fails {
          return Failed(GitFailure);
        }
        main := Detached(tags[base.name].commit);
        return Done;
      }
      if base.name !in branches || fails || CheckedOutLinked(State(), base.name) {
        return Failed(GitFailure);
      }
      main := OnBranch(base.name);
      return Done;
    }

    method PruneWorktree(path: Path, fault: PruneFault) returns (out: Outcome)
      modifies this
      ensures (State(), out) == Model.PruneWorktree(old(State()), path, fault)
    {
      if fault == DirectoryStays {
        return Failed(GitFailure);
      }
      dirs := WithoutTree(dirs, path);
      if fault == MetadataStays {
        return Failed(GitFailure);
      }
      linked := linked - {path};
      return Done;
    }

    method RemoveLinked(path: Path, fault: PruneFault) returns (out: Outcome)
      modifies this
      ensures (State(), out) == Model.RemoveLinked(old(State()), path, fault)
    {
      if path !in linked {
        return Failed(WorktreeNotFound);
      }
      out := PruneWorktree(path, fault);
    }

    method DeleteBranch(b: string, fails: bool) returns (out: Outcome)
      modifies this
      ensures (State(), out) == Model.DeleteBranch(old(State()), b, fails)
      ensures old(Valid()) && branches != old(branches) ==>
                (LosesNothing(old(State()), State()) <==> ContainedElsewhere(old(State()), b))
    {
      if Valid() && b in branches && b !in Model.DeleteBranch(State(), b, fails).0.branches {
        DeleteBranchLosesNothingIff(State(), b, fails);
      }
      if b == "" {
        return Done;
      }
      if CurrentBranch(State(), root) == Some(b) {
        return Failed(IsCheckedOut);
      }
      if b !in branches {
        return Done;
      }
      if CheckedOut(State(), b) || fails {
        return Failed(GitFailure);
      }
      branches := branches - {b};
      return Done;
    }

    method CreateWorktree(caller: Path, dest: Path, branch: string, base: Option<string>, env: CreateEnv)
      returns (out: Outcome)
      requires Valid()
      modifies this
      ensures (State(), out) == Model.CreateWorktree(old(State()), caller, dest, branch, base, env)
      ensures Valid() && LosesNothing(old(State()), State())
      ensures out.Failed? ==>
                (branches != old(branches) <==>
                   && ReachesBranch(old(State()), caller, dest, branch, base, env) && branch !in old(branches)
                   && (env.rollbackFails || CheckedOutLinked(old(State()), branch)))
    {
      CreateRollsBackIff(State(), caller, dest, branch, base, env);
      CreateLosesNothing(State(), caller, dest, branch, base, env);
      CreateForward(State(), caller, dest, branch, base, env);
      if branch == "" {
        return Failed(EmptyBranchName);
      }
      var start := StartOf(State(), caller, base);
      if Discover(State(), caller) == None {
        return Failed(NotARepository);
      }
      if HeadCommit(State(), main) == None {
        return Failed(NoCommits);
      }
      if dest in dirs {
        return Failed(PathExists);
      }
      var parent := Parent(dest);
      if env.prepare.StoppedAt? {
        dirs := dirs + Prefixes(if env.prepare.depth < |dest| then dest[..env.prepare.depth] else parent);
        return Failed(GitFailure);
      }
      dirs := dirs + Prefixes(parent);
      if start == None {
        return Failed(GitFailure);
      }
      out := AddWorktree(dest, branch, start.value, env);
    }

    method AddWorktree(dest: Path, branch: string, start: nat, env: CreateEnv) returns (out: Outcome)
      modifies this
      ensures (State(), out) == Model.AddWorktree(old(State()), dest, branch, start, env)
    {
      var before := branches;
      var created := false;
      if branch !in branches {
        branches := branches[branch := start];
        created := true;
      }
      if env.addFails || CheckedOut(State(), branch) {
        if created && !env.rollbackFails && !CheckedOut(State(), branch) {
          branches := branches - {branch};
          assert branches == before;
        }
        return Failed(GitFailure);
      }
      linked := linked[dest := OnBranch(branch)];
      dirs := dirs + Prefixes(dest);
      return Done;
    }

    method MergeWorktree(caller: Path, path: Path, base: Option<Base>, removeAfter: bool, clean: bool,
                         checkoutFails: bool, merge: MergeEnv, remove: RemoveEnv) returns (out: Outcome)
      requires Valid()
      modifies this
      ensures (State(), out) ==
              Model.MergeWorktree(old(State()), caller, path, base, removeAfter, clean, checkoutFails, merge, remove)
      ensures Forward(old(State()), State())
      ensures (removeAfter ==> MergeGuard(old(State()), path, base)) ==> LosesNothing(old(State()), State())
      ensures out.Failed? ==> KeepsBranches(old(State()), State())
      ensures out.Done? ==> IsMerged(old(State()), State(), path, base, removeAfter)
    {
      hide Model.MergeBranch, Model.DeleteBranch, Model.RemoveLinked, LosesNothing, KeepsBranches,
        MovesOnlyHead, MergeGuard, IsMerged;
      MergeWorktreeGives(State(), caller, path, base, removeAfter, clean, checkoutFails, merge, remove);
      if Discover(State(), caller) == None || Discover(State(), path) == None {
        return Failed(NotARepository);
      }
      if !clean {
        return Failed(Dirty);
      }
      var branch := CurrentBranch(State(), path);
      if branch == None {
        return Failed(UnresolvedBranch);
      }
      var into := BaseOf(State(), base);
      if into == None {
        return Failed(UnresolvedBase);
      }
      if into.value == Short(branch.value) {
        return Failed(SameBranch);
      }
      if !(into.value.Short? && CurrentBranch(State(), root) == Some(into.value.name)) {
        SwitchForward(State(), into.value, checkoutFails);
        out := CheckoutBranch(into.value, checkoutFails);
        if out.Failed? {
          return;
        }
      }
      out := MergeBranch(Main, branch.value, merge);
      if out.Failed? || !removeAfter {
        return;
      }
      out := RemoveLinked(path, remove.prune);
      if out.Failed? {
        return;
      }
      out := DeleteBranch(branch.value, remove.deleteFails);
    }

    method MergeIntoSource(source: Path, child: Path, expected: Option<string>, clean: bool, merge: MergeEnv)
      returns (out: Outcome)
      requires Valid()
      modifies this
      ensures (State(), out) == Model.MergeIntoSource(old(State()), source, child, expected, clean, merge)
      ensures Forward(old(State()), State()) && KeepsBranches(old(State()), State())
      ensures out.Done? ==> MergedIff(old(State()), State(), source, CurrentBranch(old(State()), child).value)
    {
      MergeIntoSourceMakesRemovable(State(), source, child, expected, clean, merge);
      if Discover(State(), child) == None || Discover(State(), source) == None {
        return Failed(NotARepository);
      }
      if !clean {
        return Failed(Dirty);
      }
      var branch := CurrentBranch(State(), child);
      if branch == None {
        return Failed(UnresolvedBranch);
      }
      var sourceBranch := CurrentBranch(State(), source);
      if sourceBranch == None {
        return Failed(UnresolvedBase);
      }
      if expected.Some? && expected.value != "" && sourceBranch != expected {
        return Failed(SourceBranchChanged);
      }
      if branch == sourceBranch {
        return Failed(SameBranch);
      }
      out := MergeBranch(Discover(State(), source).value, branch.value, merge);
    }

    method EnsureRemovable(source: Path, child: Path, childBranch: string, expectedPath: Path, clean: bool)
      returns (out: Outcome)
      requires Valid()
      ensures out == Model.EnsureRemovable(State(), source, child, childBranch, expectedPath, clean)
      ensures out.Done? <==>
                && childBranch != "" && child == expectedPath && Discover(State(), source).Some?
                && (child in dirs ==> child in linked && clean && CurrentBranch(State(), child) == Some(childBranch))
                && (if childBranch in branches then AncestryTest(State(), source, childBranch) else child !in linked)
    {
      if childBranch == "" {
        return Failed(EmptyBranchName);
      }
      if Discover(State(), source) == None {
        return Failed(NotARepository);
      }
      if child != expectedPath {
        return Failed(PathMismatch);
      }
      var hasMetadata, exists' := child in linked, child in dirs;
      if exists' && !hasMetadata {
        return Failed(MetadataMissing);
      }
      if exists' {
        if !clean {
          return Failed(Dirty);
        }
        var actual := CurrentBranch(State(), child);
        if actual == None {
          return Failed(UnresolvedBranch);
        }
        if actual.value != childBranch {
          return Failed(ChildBranchChanged);
        }
      }
      if childBranch !in branches {
        return if hasMetadata then Failed(BranchMissing) else Done;
      }
      var childHead := branches[childBranch];
      var sourceHead := HeadCommit(State(), HeadOf(State(), Discover(State(), source).value));
      if sourceHead == None {
        return Failed(GitFailure);
      }
      return if sourceHead.value == childHead || Reaches(history, sourceHead.value, childHead) then Done
             else Failed(NotMerged);
    }

    method RemoveMerged(source: Path, child: Path, childBranch: string, expectedPath: Path, clean: bool,
                        env: RemoveEnv) returns (out: Outcome)
      requires Valid()
      modifies this
      ensures (State(), out) == Model.RemoveMerged(old(State()), source, child, childBranch, expectedPath, clean, env)
      ensures Forward(old(State()), State())
      ensures RemoveGuard(old(State()), source, child) ==> LosesNothing(old(State()), State())
      ensures out.Done? && childBranch in old(branches) ==>
                (LosesNothing(old(State()), State()) <==> ContainedElsewhere(old(State()), childBranch))
      ensures out.Failed? ==> branches == old(branches)
    {
      RemoveMergedPromises(State(), source, child, childBranch, expectedPath, clean, env);
      out := EnsureRemovable(source, child, childBranch, expectedPath, clean);
      if out.Failed? {
        return;
      }
      if child in linked {
        out := PruneWorktree(child, env.prune);
        if out.Failed? {
          return;
        }
      }
      out := DeleteBranch(childBranch, env.deleteFails);
    }

    method RemoveWorktree(caller: Path, path: Path, removeBranch: bool, env: RemoveEnv) returns (out: Outcome)
      modifies this
      ensures (State(), out) == Model.RemoveWorktree(old(State()), caller, path, removeBranch, env)
      ensures old(Valid()) && (out.Failed? || !removeBranch) ==> LosesNothing(old(State()), State())
    {
      if Valid() {
        RemoveWorktreeLosesNothingIff(State(), caller, path, removeBranch, env);
      }
      if Discover(State(), caller) == None {
        return Failed(NotARepository);
      }
      var doomed: Option<string> := None;
      if removeBranch {
        var branch := CurrentBranch(State(), path);
        if branch != CurrentBranch(State(), root) {
          doomed := branch;
        }
      }
      out := RemoveLinked(path, env.prune);
      if out.Failed? || doomed == None {
        return;
      }
      out := DeleteBranch(doomed.value, env.deleteFails);
    }

    /** Any list of operations, each guarded before it runs, loses no commit reachable from a branch. */
    method RunOps(ops: seq<Op>)
      requires Valid()
      modifies this
      ensures Valid() && State() == Run(old(State()), ops)
      ensures GuardedRun(old(State()), ops) ==> LosesNothing(old(State()), State())
    {
      if GuardedRun(State(), ops) {
        NoCommitLost(State(), ops);
      }
      ghost var start := State();
      assert ops[0..] == ops;
      for i := 0 to |ops|
        invariant Valid() && Run(State(), ops[i..]) == Run(start, ops)
      {
        assert ops[i..][1..] == ops[i + 1..];
        ghost var before := State();
        ApplyForward(before, ops[i]);
        RunOp(ops[i]);
        assert State() == Apply(before, ops[i]);
      }
    }

    method RunOp(op: Op)
      requires Valid()
      modifies this
      ensures State() == Apply(old(State()), op)
    {
      match op {
        case Create(caller, dest, branch, from, env) =>
          var _ := CreateWorktree(caller, dest, branch, from, env);
        case Commit(at) =>
          var place := Discover(State(), at);
          if place.Some? {
            var head := HeadCommit(State(), HeadOf(State(), place.value));
            CommitAt(place.value, if head.Some? then [head.value] else []);
          }
        case Merge(caller, path, base, removeAfter, clean, checkoutFails, merge, remove) =>
          var _ := MergeWorktree(caller, path, base, removeAfter, clean, checkoutFails, merge, remove);
        case IntoSource(source, child, expected, clean, merge) =>
          var _ := MergeIntoSource(source, child, expected, clean, merge);
        case Remove(source, child, childBranch, expectedPath, clean, remove) =>
          var _ := RemoveMerged(source, child, childBranch, expectedPath, clean, remove);
        case MakeDir(dir) =>
          dirs := MakeDirectory(State(), dir).dirs;
        case RemoveDir(dir) =>
          dirs := RemoveDirectory(State(), dir).dirs;
      }
    }
  }
}
