/** The authorization cache against its file, with writes between the two reads of a refresh. */
module CacheCoherence {
  import opened Wrappers
  import opened DeviceStore

  /** What a file holds; each write makes a new version, and the fingerprint tells versions apart. */
  datatype File = Missing | Present(version: nat, content: LoadRead)

  /** `stat` is the fingerprint a refresh has read when it has not yet read the content. */
  datatype System = System(file: File, versions: nat, cache: Cache, stat: Option<FingerprintRead>)

  function StatOf(file: File): Fingerprint {
    if file.Missing? then None else Some(file.version)
  }

  /** A missing file loads as no devices. */
  function LoadOf(file: File): LoadRead {
    if file.Missing? then Loaded([]) else file.content
  }

  datatype Step =
    | Write(content: LoadRead)
    | Delete
    | Replace(devices: seq<Device>)
    | BeginRefresh(statFails: bool)
    | FinishRefresh(readFails: bool)

  /** The cache's lock keeps a refresh and a replacement apart; the file is not locked. */
  predicate Enabled(s: System, step: Step) {
    match step
    case Write(_) => true
    case Delete => true
    case Replace(_) => s.stat == None
    case BeginRefresh(_) => s.stat == None
    case FinishRefresh(_) => s.stat != None
  }

  function Next(s: System, step: Step): System
    requires Enabled(s, step)
  {
    match step
    case Write(content) => s.(file := Present(s.versions, content), versions := s.versions + 1)
    case Delete => s.(file := Missing)
    case Replace(devices) => s.(cache := Cache(AuthorizationMap(devices), None))
    case BeginRefresh(statFails) => s.(stat := Some(if statFails then StatFailed else Stat(StatOf(s.file))))
    case FinishRefresh(readFails) =>
      s.(cache := Refresh(s.cache, s.stat.value, if readFails then LoadFailed else LoadOf(s.file)), stat := None)
  }

  ghost predicate RunsTo(s: System, steps: seq<Step>, end: System)
    decreases |steps|
  {
    if steps == [] then s == end else Enabled(s, steps[0]) && RunsTo(Next(s, steps[0]), steps[1..], end)
  }

  ghost predicate IsStart(s: System) {
    s.stat == None && s.cache.fingerprint == None && (s.file.Present? ==> s.file.version < s.versions)
  }

  /** A known fingerprint is that of an existing version; if the file still has it, the credentials are its. */
  ghost predicate Inv(s: System) {
    && (s.file.Present? ==> s.file.version < s.versions)
    && (s.cache.fingerprint.Some? ==>
          && s.cache.fingerprint.value < s.versions
          && (StatOf(s.file) == s.cache.fingerprint ==> s.cache.credentials == CredentialsOf(s.file.content)))
    && (s.stat.Some? && s.stat.value.Stat? && s.stat.value.fingerprint.Some? ==>
          s.stat.value.fingerprint.value < s.versions)
  }

  lemma {:induction false} RunKeeps(s: System, steps: seq<Step>, end: System)
    requires Inv(s) && RunsTo(s, steps, end)
    ensures Inv(end)
    decreases |steps|
  {
    if steps != [] {
      RunKeeps(Next(s, steps[0]), steps[1..], end);
    }
  }

  /** A refresh with no write to the file between its start and its end. */
  function QuietRefresh(s: System, statFails: bool, readFails: bool): System
    requires s.stat == None
  {
    Next(Next(s, BeginRefresh(statFails)), FinishRefresh(readFails))
  }

  /** Over every run, a refresh that starts after the last write leaves the credentials the file gives, except
      exactly when the file is missing, the fingerprint is unknown and old credentials are held. */
  lemma RefreshIsCoherentIff(start: System, steps: seq<Step>, s: System)
    requires IsStart(start) && RunsTo(start, steps, s) && s.stat == None
    ensures QuietRefresh(s, false, false).cache.credentials == CredentialsOf(LoadOf(s.file)) <==>
              !(s.file.Missing? && s.cache.fingerprint == None && s.cache.credentials != map[])
  {
    RunKeeps(start, steps, s);
    assert AuthorizationMap([]) == map[];
  }

  /** With the file present it is coherent whatever happened before; a failing read shows no stale credential. */
  lemma RefreshOfPresentFile(start: System, steps: seq<Step>, s: System, statFails: bool, readFails: bool)
    requires IsStart(start) && RunsTo(start, steps, s) && s.stat == None && s.file.Present?
    ensures QuietRefresh(s, statFails, readFails).cache.credentials in {CredentialsOf(s.file.content), map[]}
    ensures !statFails && !readFails ==>
              QuietRefresh(s, statFails, readFails).cache.credentials == CredentialsOf(s.file.content)
  {
    RunKeeps(start, steps, s);
  }

  /** A refresh that cannot read the fingerprint leaves no credential, and neither does one that finds the fingerprint
      changed and cannot read the file. */
  lemma FailedRefreshClears(s: System, readFails: bool)
    requires s.stat == None
    ensures QuietRefresh(s, true, readFails).cache == Cache(map[], None)
    ensures StatOf(s.file) != s.cache.fingerprint ==> QuietRefresh(s, false, true).cache == Cache(map[], None)
  {
  }

  /** Deleting the file right after a pairing is never noticed: refreshing does not change the cache. */
  lemma DeletionAfterReplaceIsMissed(device: Device)
    requires Entry(device).Some?
    ensures var start := System(Missing, 0, Cache(map[], None), None);
            var steps := [Write(Loaded([device])), Replace([device]), Delete];
            var s := System(Missing, 1, Cache(AuthorizationMap([device]), None), None);
            && RunsTo(start, steps, s)
            && QuietRefresh(s, false, false) == s
            && s.cache.credentials != CredentialsOf(LoadOf(s.file))
  {
    var start := System(Missing, 0, Cache(map[], None), None);
    var written := Next(start, Write(Loaded([device])));
    var replaced := Next(written, Replace([device]));
    var s := Next(replaced, Delete);
    assert RunsTo(s, [], s);
    assert RunsTo(replaced, [Delete], s) by { assert [Delete][1..] == []; }
    assert RunsTo(written, [Replace([device]), Delete], s) by {
      assert [Replace([device]), Delete][1..] == [Delete];
    }
    assert [Write(Loaded([device])), Replace([device]), Delete][1..] == [Replace([device]), Delete];
    assert Decides([device], 0, Entry(device).value.0);
    AuthorizationMapIsLast([device], 0, Entry(device).value.0);
    assert AuthorizationMap([]) == map[];
  }
}
