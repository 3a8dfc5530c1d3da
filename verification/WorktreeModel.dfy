/** What each worktree operation does to the refs, HEADs and directories of one repository.
    Failures of git2 and of the file system are inputs, so every early return is covered. */
module WorktreeModel {
  import opened CommitGraph
  import opened Wrappers

  /** The components of a path from the file-system root; a directory contains the paths it is a prefix of. */
  type Path = seq<string>

  datatype Head = OnBranch(name: string) | Detached(commit: nat)

  /** A ref outside refs/heads; an annotated one names a tag object, not a commit. */
  datatype Tag = Tag(commit: nat, annotated: bool)

  datatype Repo = Repo(
    history: History,
    branches: map<string, nat>,
    tags: map<string, Tag>,
    root: Path,
    main: Head,
    linked: map<Path, Head>,
    dirs: set<Path>)

  datatype Place = Main | Linked(path: Path)

  /** A base as the caller spells it: `name`, `refs/heads/name` or another full ref name. */
  datatype Base = Short(name: string) | FullBranch(name: string) | FullTag(name: string)

  datatype Error =
    | NotARepository | EmptyBranchName | NoCommits | PathExists | Dirty
    | UnresolvedBranch | UnresolvedBase | SameBranch | SourceBranchChanged
    | PathMismatch | MetadataMissing | ChildBranchChanged | BranchMissing | NotMerged
    | WorktreeNotFound | IsCheckedOut | Conflicts | GitFailure

  datatype Outcome = Done | Failed(error: Error)

  /** Where a git2 call fails: before a ref moves, or after (cleanup, set_head). */
  datatype RefFault = NoFault | BeforeRef | AfterRef
  datatype PruneFault = PruneWorks | DirectoryStays | MetadataStays

  datatype MergeEnv = MergeEnv(conflict: bool, fault: RefFault)
  datatype RemoveEnv = RemoveEnv(prune: PruneFault, deleteFails: bool)

  /** Preparing the destination may stop when some of the directories above it have been made. */
  datatype Prepare = Prepared | StoppedAt(depth: nat)
  datatype CreateEnv = CreateEnv(prepare: Prepare, addFails: bool, rollbackFails: bool)

  /** The directories above an existing one exist, and no linked worktree contains the main one. */
  ghost predicate ValidDirs(r: Repo) {
    && r.root in r.dirs
    && (forall d, k :: d in r.dirs && 0 <= k <= |d| ==> d[..k] in r.dirs)
    && (forall p :: p in r.linked ==> !(p <= r.root))
  }

  ghost predicate Valid(r: Repo) {
    && ValidDirs(r)
    && (forall b :: b in r.branches ==> r.branches[b] < |r.history|)
    && (forall t :: t in r.tags ==> r.tags[t].commit < |r.history|)
    && (r.main.Detached? ==> r.main.commit < |r.history|)
    && (forall p :: p in r.linked && r.linked[p].Detached? ==> r.linked[p].commit < |r.history|)
  }

  // ---- looking things up ----

  /** The innermost worktree a path lies in. */
  function Enclosing(linked: set<Path>, root: Path, path: Path): (place: Option<Place>)
    ensures place.Some? && place.value.Linked? ==> place.value.path in linked && place.value.path <= path
    decreases |path|
  {
    if path in linked then Some(Linked(path))
    else if path == root then Some(Main)
    else if path == [] then None
    else Enclosing(linked, root, path[..|path| - 1])
  }

  /** The worktree an existing directory belongs to. */
  function Discover(r: Repo, path: Path): (place: Option<Place>)
    ensures place.Some? ==> IsPlace(r, place.value)
  {
    if path !in r.dirs then None else Enclosing(r.linked.Keys, r.root, path)
  }

  predicate IsPlace(r: Repo, place: Place) {
    place.Linked? ==> place.path in r.linked
  }

  function HeadOf(r: Repo, place: Place): Head
    requires IsPlace(r, place)
  {
    match place
    case Main => r.main
    case Linked(path) => r.linked[path]
  }

  function HeadCommit(r: Repo, head: Head): Option<nat> {
    match head
    case OnBranch(b) => if b in r.branches then Some(r.branches[b]) else None
    case Detached(c) => Some(c)
  }

  function CurrentBranch(r: Repo, path: Path): Option<string> {
    match Discover(r, path)
    case None => None
    case Some(place) =>
      match HeadOf(r, place)
      case OnBranch(b) => if b in r.branches && b != "" then Some(b) else None
      case Detached(_) => None
  }

  predicate CheckedOutLinked(r: Repo, b: string) {
    exists p :: p in r.linked && r.linked[p] == OnBranch(b)
  }

  predicate CheckedOut(r: Repo, b: string) {
    r.main == OnBranch(b) || CheckedOutLinked(r, b)
  }

  /** The commit a short name means to revparse: a tag of that name wins over the branch. */
  function RevparseCommit(r: Repo, name: string): Option<nat> {
    if name in r.tags then Some(r.tags[name].commit)
    else if name in r.branches then Some(r.branches[name])
    else None
  }

  /** As for a merge, where the object itself must be a commit. */
  function AnnotatedCommit(r: Repo, name: string): Option<nat> {
    if name in r.tags && r.tags[name].annotated then None else RevparseCommit(r, name)
  }

  // ---- git2 primitives ----

  function MoveHead(r: Repo, place: Place, c: nat): Repo
    requires IsPlace(r, place)
  {
    match HeadOf(r, place)
    case OnBranch(b) => r.(branches := r.branches[b := c])
    case Detached(_) =>
      match place
      case Main => r.(main := Detached(c))
      case Linked(path) => r.(linked := r.linked[path := Detached(c)])
  }

  function AddCommit(r: Repo, place: Place, parents: seq<nat>): Repo
    requires IsPlace(r, place)
    requires forall i :: 0 <= i < |parents| ==> parents[i] < |r.history|
  {
    MoveHead(r.(history := r.history + [parents]), place, |r.history|)
  }

  /** A user's commit in the worktree at `path`. */
  function CommitIn(r: Repo, path: Path): (Repo, Outcome)
    requires Valid(r)
  {
    match Discover(r, path)
    case None => (r, Failed(NotARepository))
    case Some(place) =>
      match HeadCommit(r, HeadOf(r, place))
      case Some(c) => (AddCommit(r, place, [c]), Done)
      case None => (AddCommit(r, place, []), Done)
  }

  function FastForwardHead(r: Repo, place: Place, target: nat, fault: RefFault): (Repo, Outcome)
    requires IsPlace(r, place)
  {
    match fault
    case BeforeRef => (r, Failed(GitFailure))
    case AfterRef => (MoveHead(r, place, target), Failed(GitFailure))
    case NoFault => (MoveHead(r, place, target), Done)
  }

  function MergeBranch(r: Repo, place: Place, name: string, env: MergeEnv): (Repo, Outcome)
    requires Valid(r) && IsPlace(r, place)
  {
    match AnnotatedCommit(r, name)
    case None => (r, Failed(UnresolvedBranch))
    case Some(theirs) =>
      match HeadCommit(r, HeadOf(r, place))
      case None => (r, Failed(GitFailure))
      case Some(ours) => MergeCommits(r, place, ours, theirs, env)
  }

  function MergeCommits(r: Repo, place: Place, ours: nat, theirs: nat, env: MergeEnv): (Repo, Outcome)
    requires IsPlace(r, place) && ours < |r.history| && theirs < |r.history|
  {
    if Reaches(r.history, ours, theirs) then (r, Done)
    else if Reaches(r.history, theirs, ours) then FastForwardHead(r, place, theirs, env.fault)
    else if env.conflict then (r, Failed(Conflicts))
    else
      match env.fault
      case BeforeRef => (r, Failed(GitFailure))
      case AfterRef => (AddCommit(r, place, [ours, theirs]), Failed(GitFailure))
      case NoFault => (AddCommit(r, place, [ours, theirs]), Done)
  }

  /** Switch the main worktree to `base`; a ref outside refs/heads detaches HEAD. */
  function CheckoutBranch(r: Repo, base: Base, fails: bool): (Repo, Outcome) {
    if base.FullTag? then
      if base.name !in r.tags || fails then (r, Failed(GitFailure))
      else (r.(main := Detached(r.tags[base.name].commit)), Done)
    else
      if base.name !in r.branches || fails || CheckedOutLinked(r, base.name) then (r, Failed(GitFailure))
      else (r.(main := OnBranch(base.name)), Done)
  }

  /** Removing a directory removes everything inside it. */
  function WithoutTree(dirs: set<Path>, path: Path): set<Path> {
    set d | d in dirs && !(path <= d)
  }

  /** The path and every directory above it. */
  function Prefixes(path: Path): set<Path> {
    set k | 0 <= k <= |path| :: path[..k]
  }

  function WithDirectory(r: Repo, path: Path): Repo {
    r.(dirs := r.dirs + Prefixes(path))
  }

  function Parent(path: Path): Path {
    if path == [] then [] else path[..|path| - 1]
  }

  function PruneWorktree(r: Repo, path: Path, fault: PruneFault): (Repo, Outcome) {
    match fault
    case DirectoryStays => (r, Failed(GitFailure))
    case MetadataStays => (r.(dirs := WithoutTree(r.dirs, path)), Failed(GitFailure))
    case PruneWorks => (r.(dirs := WithoutTree(r.dirs, path), linked := r.linked - {path}), Done)
  }

  function RemoveLinked(r: Repo, path: Path, fault: PruneFault): (Repo, Outcome) {
    if path !in r.linked then (r, Failed(WorktreeNotFound)) else PruneWorktree(r, path, fault)
  }

  function DeleteBranch(r: Repo, b: string, fails: bool): (Repo, Outcome) {
    if b == "" then (r, Done)
    else if CurrentBranch(r, r.root) == Some(b) then (r, Failed(IsCheckedOut))
    else if b !in r.branches then (r, Done)
    else if CheckedOut(r, b) || fails then (r, Failed(GitFailure))
    else (r.(branches := r.branches - {b}), Done)
  }

  // ---- the operations ----

  function CreateWorktree(r: Repo, caller: Path, dest: Path, branch: string,
                          base: Option<string>, env: CreateEnv): (Repo, Outcome)
    requires Valid(r)
  {
    if branch == "" then (r, Failed(EmptyBranchName))
    else if Discover(r, caller) == None then (r, Failed(NotARepository))
    else if HeadCommit(r, r.main) == None then (r, Failed(NoCommits))
    else if dest in r.dirs then (r, Failed(PathExists))
    else if env.prepare.StoppedAt? then
      (WithDirectory(r, if env.prepare.depth < |dest| then dest[..env.prepare.depth] else Parent(dest)),
       Failed(GitFailure))
    else
      var ready := WithDirectory(r, Parent(dest));
      match StartOf(r, caller, base)
      case None => (ready, Failed(GitFailure))
      case Some(c) => AddWorktree(ready, dest, branch, c, env)
  }

  /** Where a new branch starts. */
  function StartOf(r: Repo, caller: Path, base: Option<string>): Option<nat> {
    var from := if base.Some? && base.value != "" then base else CurrentBranch(r, caller);
    if from.Some? then RevparseCommit(r, from.value) else HeadCommit(r, r.main)
  }

  /** Create the branch when it is new, register the worktree, and undo the branch on failure. */
  function AddWorktree(r: Repo, dest: Path, branch: string, start: nat, env: CreateEnv): (Repo, Outcome) {
    var named := if branch in r.branches then r else r.(branches := r.branches[branch := start]);
    if env.addFails || CheckedOut(named, branch) then
      (if env.rollbackFails || CheckedOut(named, branch) then named else r, Failed(GitFailure))
    else
      (WithDirectory(named, dest).(linked := named.linked[dest := OnBranch(branch)]), Done)
  }

  function MergeWorktree(r: Repo, caller: Path, path: Path, base: Option<Base>, removeAfter: bool,
                         clean: bool, checkoutFails: bool, merge: MergeEnv, remove: RemoveEnv): (Repo, Outcome)
    requires Valid(r)
  {
    if Discover(r, caller) == None || Discover(r, path) == None then (r, Failed(NotARepository))
    else if !clean then (r, Failed(Dirty))
    else
      match CurrentBranch(r, path)
      case None => (r, Failed(UnresolvedBranch))
      case Some(branch) =>
        match BaseOf(r, base)
        case None => (r, Failed(UnresolvedBase))
        case Some(into) =>
          if into == Short(branch) then (r, Failed(SameBranch))
          else
            var (based, switched) := SwitchTo(r, into, checkoutFails);
            if switched.Failed? then (based, switched)
            else
              var (merged, outcome) := MergeBranch(based, Main, branch, merge);
              if outcome.Failed? || !removeAfter then (merged, outcome)
              else
                var (pruned, removed) := RemoveLinked(merged, path, remove.prune);
                if removed.Failed? then (pruned, removed)
                else DeleteBranch(pruned, branch, remove.deleteFails)
  }

  function BaseOf(r: Repo, base: Option<Base>): Option<Base> {
    if base.Some? && base.value.name != "" then base
    else
      match CurrentBranch(r, r.root)
      case Some(b) => Some(Short(b))
      case None => None
  }

  function SwitchTo(r: Repo, into: Base, fails: bool): (s: (Repo, Outcome))
    ensures Valid(r) ==> Valid(s.0)
  {
    if into.Short? && CurrentBranch(r, r.root) == Some(into.name) then (r, Done)
    else CheckoutBranch(r, into, fails)
  }

  function MergeIntoSource(r: Repo, source: Path, child: Path, expected: Option<string>,
                           clean: bool, merge: MergeEnv): (Repo, Outcome)
    requires Valid(r)
  {
    if Discover(r, child) == None || Discover(r, source) == None then (r, Failed(NotARepository))
    else if !clean then (r, Failed(Dirty))
    else
      match CurrentBranch(r, child)
      case None => (r, Failed(UnresolvedBranch))
      case Some(branch) =>
        match CurrentBranch(r, source)
        case None => (r, Failed(UnresolvedBase))
        case Some(sourceBranch) =>
          if expected.Some? && expected.value != "" && sourceBranch != expected.value then
            (r, Failed(SourceBranchChanged))
          else if branch == sourceBranch then (r, Failed(SameBranch))
          else MergeBranch(r, Discover(r, source).value, branch, merge)
  }

  /** `expectedPath` is the managed path of `childBranch` under the main worktree. */
  function EnsureRemovable(r: Repo, source: Path, child: Path, childBranch: string,
                           expectedPath: Path, clean: bool): Outcome
    requires Valid(r)
  {
    if childBranch == "" then Failed(EmptyBranchName)
    else if Discover(r, source) == None then Failed(NotARepository)
    else if child != expectedPath then Failed(PathMismatch)
    else if child in r.dirs && child !in r.linked then Failed(MetadataMissing)
    else if child in r.dirs && !clean then Failed(Dirty)
    else if child in r.dirs && CurrentBranch(r, child) == None then Failed(UnresolvedBranch)
    else if child in r.dirs && CurrentBranch(r, child) != Some(childBranch) then Failed(ChildBranchChanged)
    else if childBranch !in r.branches then
      if child in r.linked then Failed(BranchMissing) else Done
    else if AncestryTest(r, source, childBranch) then Done
    else if HeadCommit(r, HeadOf(r, Discover(r, source).value)) == None then Failed(GitFailure)
    else Failed(NotMerged)
  }

  /** The removal check's test: the source HEAD is the child's tip or a descendant of it. */
  predicate AncestryTest(r: Repo, source: Path, childBranch: string) {
    && Discover(r, source).Some? && childBranch in r.branches
    && var head := HeadCommit(r, HeadOf(r, Discover(r, source).value));
    && head.Some? && Reaches(r.history, head.value, r.branches[childBranch])
  }

  function RemoveMerged(r: Repo, source: Path, child: Path, childBranch: string,
                        expectedPath: Path, clean: bool, env: RemoveEnv): (Repo, Outcome)
    requires Valid(r)
  {
    var checked := EnsureRemovable(r, source, child, childBranch, expectedPath, clean);
    if checked.Failed? then (r, checked)
    else
      var (pruned, removed) := if child in r.linked then PruneWorktree(r, child, env.prune) else (r, Done);
      if removed.Failed? then (pruned, removed)
      else DeleteBranch(pruned, childBranch, env.deleteFails)
  }

  /** Removal without a merged check. */
  function RemoveWorktree(r: Repo, caller: Path, path: Path, removeBranch: bool, env: RemoveEnv)
    : (Repo, Outcome)
  {
    if Discover(r, caller) == None then (r, Failed(NotARepository))
    else
      var branch := CurrentBranch(r, path);
      var doomed := if removeBranch && branch != CurrentBranch(r, r.root) then branch else None;
      var (pruned, removed) := RemoveLinked(r, path, env.prune);
      if removed.Failed? || doomed == None then (pruned, removed)
      else DeleteBranch(pruned, doomed.value, env.deleteFails)
  }

  // ---- what others do to the directories ----

  /** Making a directory; a worktree whose directory is gone does not come back this way. */
  function MakeDirectory(r: Repo, path: Path): Repo {
    if forall p :: p in r.linked && p <= path ==> p in r.dirs then WithDirectory(r, path) else r
  }

  /** Removing a directory that does not contain the main worktree. */
  function RemoveDirectory(r: Repo, path: Path): Repo {
    if path <= r.root then r else r.(dirs := WithoutTree(r.dirs, path))
  }
}
