/** The stored devices, the map of credentials derived from them, and the cache of that map. */
module DeviceStore {
  import opened Wrappers
  import opened Text

  datatype Device = Device(id: string, token: string, name: string, platform: string,
                           pairedAt: string, lastSeen: string)

  // ---- credentials ----

  /** The trimmed id and token of a device that has both. */
  function Entry(d: Device): Option<(string, string)> {
    if Trim(d.id) == "" || Trim(d.token) == "" then None else Some((Trim(d.id), Trim(d.token)))
  }

  function AuthorizationMap(devices: seq<Device>): map<string, string> {
    if devices == [] then map[]
    else
      var before := AuthorizationMap(devices[..|devices| - 1]);
      match Entry(devices[|devices| - 1])
      case None => before
      case Some((id, token)) => before[id := token]
  }

  predicate HasId(d: Device, id: string) {
    Entry(d).Some? && Entry(d).value.0 == id
  }

  /** The last device with a trimmed id and a token decides. */
  predicate Decides(devices: seq<Device>, i: nat, id: string) {
    i < |devices| && HasId(devices[i], id) && forall j :: i < j < |devices| ==> !HasId(devices[j], id)
  }

  lemma {:induction false} InAuthorizationMap(devices: seq<Device>, id: string)
    ensures id in AuthorizationMap(devices) <==> exists i: nat :: i < |devices| && HasId(devices[i], id)
  {
    hide Trim;
    if devices != [] {
      var before, last := devices[..|devices| - 1], devices[|devices| - 1];
      InAuthorizationMap(before, id);
      assert id in AuthorizationMap(devices) <==> HasId(last, id) || id in AuthorizationMap(before);
      if i: nat :| i < |before| && HasId(before[i], id) {
        assert HasId(devices[i], id);
      }
      if i: nat :| i < |devices| && HasId(devices[i], id) {
        assert i < |before| ==> HasId(before[i], id);
      }
    }
  }

  /** An id is in the map exactly when some device has it, trimmed, with a token that is not blank. */
  lemma AuthorizedIff(devices: seq<Device>, id: string)
    ensures id in AuthorizationMap(devices) <==>
              exists i: nat :: i < |devices| && Trim(devices[i].id) == id && id != "" && Trim(devices[i].token) != ""
  {
    hide Trim;
    InAuthorizationMap(devices, id);
    assert forall i: nat :: i < |devices| ==>
        (HasId(devices[i], id) <==> Trim(devices[i].id) == id && id != "" && Trim(devices[i].token) != "");
  }

  /** The map holds exactly the ids some device has, each with the token of the last such device. */
  lemma {:induction false} AuthorizationMapIsLast(devices: seq<Device>, i: nat, id: string)
    requires Decides(devices, i, id)
    ensures id in AuthorizationMap(devices) && AuthorizationMap(devices)[id] == Trim(devices[i].token)
    decreases |devices|
  {
    hide Trim;
    var before := devices[..|devices| - 1];
    if i < |before| {
      assert Decides(before, i, id) by {
        assert forall j :: i < j < |before| ==> before[j] == devices[j];
      }
      AuthorizationMapIsLast(before, i, id);
      assert !HasId(devices[|devices| - 1], id);
    }
  }

  // ---- adding or refreshing a device ----

  /** The first device with exactly this id, or the length. */
  function IndexOfId(devices: seq<Device>, id: string): (i: nat)
    ensures i <= |devices| && (i < |devices| ==> devices[i].id == id)
    ensures forall j :: 0 <= j < i ==> devices[j].id != id
  {
    if devices == [] || devices[0].id == id then 0 else 1 + IndexOfId(devices[1..], id)
  }

  function Refreshed(d: Device, token: string, name: string, platform: string, now: string): Device {
    d.(token := if Trim(token) != "" then token else d.token,
       name := if Trim(name) != "" then name else d.name,
       platform := if Trim(platform) != "" then platform else d.platform,
       lastSeen := now)
  }

  function Upsert(devices: seq<Device>, id: string, token: string, name: string, platform: string, now: string)
    : seq<Device>
  {
    var i := IndexOfId(devices, id);
    if i < |devices| then devices[i := Refreshed(devices[i], token, name, platform, now)]
    else devices + [Device(id, token, name, platform, now, now)]
  }

  method Record(devices: seq<Device>, id: string, token: string, name: string, platform: string, now: string)
    returns (updated: seq<Device>)
    ensures updated == Upsert(devices, id, token, name, platform, now)
  {
    updated := devices;
    var i := 0;
    while i < |updated| && updated[i].id != id
      invariant 0 <= i <= |devices| && updated == devices
      invariant forall j :: 0 <= j < i ==> devices[j].id != id
    {
      i := i + 1;
    }
    assert i == IndexOfId(devices, id);
    if i < |updated| {
      var existing := updated[i];
      if Trim(token) != "" {
        existing := existing.(token := token);
      }
      if Trim(name) != "" {
        existing := existing.(name := name);
      }
      if Trim(platform) != "" {
        existing := existing.(platform := platform);
      }
      existing := existing.(lastSeen := now);
      updated := updated[i := existing];
    } else {
      updated := updated + [Device(id, token, name, platform, now, now)];
    }
  }

  ghost predicate UniqueIds(devices: seq<Device>) {
    forall i, j :: 0 <= i < j < |devices| ==> devices[i].id != devices[j].id
  }

  /** Upserting keeps ids unique, adds the id, keeps every pairing time, and leaves other devices alone. */
  lemma UpsertKeeps(devices: seq<Device>, id: string, token: string, name: string, platform: string, now: string)
    requires UniqueIds(devices)
    ensures var updated := Upsert(devices, id, token, name, platform, now);
            && UniqueIds(updated)
            && (forall i :: 0 <= i < |devices| ==>
                  i < |updated| && updated[i].id == devices[i].id && updated[i].pairedAt == devices[i].pairedAt
                  && (devices[i].id != id ==> updated[i] == devices[i]))
            && (exists i :: 0 <= i < |updated| && updated[i].id == id && updated[i].lastSeen == now
                            && (Trim(token) != "" ==> updated[i].token == token))
            && |updated| == |devices| + if exists i :: 0 <= i < |devices| && devices[i].id == id then 0 else 1
  {
    var updated := Upsert(devices, id, token, name, platform, now);
    var i := IndexOfId(devices, id);
    assert updated[i].id == id && updated[i].lastSeen == now;
  }

  /** An upsert changes the one device with the id, or adds it: token, name and platform are replaced unless blank, the
      time last seen always, the pairing time never; a new device is paired now. */
  lemma UpsertIs(devices: seq<Device>, id: string, token: string, name: string, platform: string, now: string)
    requires UniqueIds(devices)
    ensures var updated := Upsert(devices, id, token, name, platform, now);
            if exists i :: 0 <= i < |devices| && devices[i].id == id then
              && |updated| == |devices|
              && forall i :: 0 <= i < |devices| ==>
                   if devices[i].id != id then updated[i] == devices[i]
                   else
                     && updated[i].id == id && updated[i].pairedAt == devices[i].pairedAt && updated[i].lastSeen == now
                     && updated[i].token == (if Trim(token) == "" then devices[i].token else token)
                     && updated[i].name == (if Trim(name) == "" then devices[i].name else name)
                     && updated[i].platform == (if Trim(platform) == "" then devices[i].platform else platform)
            else
              && |updated| == |devices| + 1 && updated[..|devices|] == devices
              && var added := updated[|devices|];
              && added.id == id && added.token == token && added.name == name && added.platform == platform
              && added.pairedAt == now && added.lastSeen == now
  {
    hide Trim;
  }

  /** After an upsert the map holds the new token exactly when no later device with the same trimmed id
      holds another one. */
  lemma UpsertAuthorizesIff(devices: seq<Device>, id: string, token: string,
                            name: string, platform: string, now: string)
    requires Trim(id) != "" && Trim(token) != ""
    ensures var updated := Upsert(devices, id, token, name, platform, now);
            var i := IndexOfId(devices, id);
            var m := AuthorizationMap(updated);
            && Trim(id) in m
            && (m[Trim(id)] == Trim(token) <==>
                  forall j :: i < j < |devices| && Decides(devices, j, Trim(id)) ==>
                    Trim(devices[j].token) == Trim(token))
  {
    var updated := Upsert(devices, id, token, name, platform, now);
    var i, key := IndexOfId(devices, id), Trim(id);
    assert updated[i].id == id && updated[i].token == token && HasId(updated[i], key);
    var last := LastWithId(updated, key, i);
    AuthorizationMapIsLast(updated, last, key);
    assert forall j :: i < j < |devices| ==> updated[j] == devices[j];
    if last > i {
      assert Decides(devices, last, key);
      forall j | i < j < |devices| && Decides(devices, j, key)
        ensures j == last
      {
      }
    } else {
      forall j | i < j < |devices|
        ensures !Decides(devices, j, key)
      {
        assert !HasId(updated[j], key);
      }
    }
  }

  /** Ids are compared untrimmed when stored but trimmed when authorized: after re-pairing "phone" the token of a
      later stored " phone" is the one that counts. */
  lemma PaddedIdShadowsNewToken(now: string)
    ensures var devices := [Device("phone", "a", "", "", "", ""), Device(" phone", "b", "", "", "", "")];
            var m := AuthorizationMap(Upsert(devices, "phone", "c", "", "", now));
            UniqueIds(devices) && "phone" in m && m["phone"] == "b"
  {
    var padded := " phone";
    assert padded[1..] == "phone";
    assert Trim(padded) == "phone" && Trim("phone") == "phone" && Trim("c") == "c" && Trim("b") == "b";
    var devices := [Device("phone", "a", "", "", "", ""), Device(padded, "b", "", "", "", "")];
    assert IndexOfId(devices, "phone") == 0;
    var updated := Upsert(devices, "phone", "c", "", "", now);
    assert Decides(updated, 1, "phone");
    AuthorizationMapIsLast(updated, 1, "phone");
  }

  lemma {:induction false} LastWithId(devices: seq<Device>, id: string, i: nat) returns (last: nat)
    requires i < |devices| && HasId(devices[i], id)
    ensures i <= last && Decides(devices, last, id)
    decreases |devices| - i
  {
    last := i;
    if !Decides(devices, i, id) {
      var j :| i < j < |devices| && HasId(devices[j], id);
      last := LastWithId(devices, id, j);
    }
  }

  /** Ids as pairing requests bring them: trimmed, not blank, no two alike. */
  ghost predicate CleanIds(devices: seq<Device>) {
    && UniqueIds(devices)
    && forall i :: 0 <= i < |devices| ==> IsTrimmed(devices[i].id)
  }

  predicate IsTrimmed(s: string) {
    s != "" && Trim(s) == s
  }

  function Lookup(m: map<string, string>, key: string): Option<string> {
    if key in m then Some(m[key]) else None
  }

  /** The map with one more device, which overwrites what its id had. */
  function Entered(m: map<string, string>, d: Device): map<string, string> {
    match Entry(d)
    case None => m
    case Some((id, token)) => m[id := token]
  }

  lemma AuthorizationMapOfLast(devices: seq<Device>, last: Device)
    ensures AuthorizationMap(devices + [last]) == Entered(AuthorizationMap(devices), last)
  {
    assert (devices + [last])[..|devices|] == devices;
  }

  lemma EnteredBeside(m: map<string, string>, last: Device, id: string, token: string)
    requires IsTrimmed(last.id) && last.id != id
    ensures Entered(m[id := token], last) == Entered(m, last)[id := token]
  {
  }

  lemma EnteredAgain(m: map<string, string>, last: Device, token: string, name: string, platform: string, now: string)
    requires IsTrimmed(last.id) && IsTrimmed(token)
    ensures Entered(m, Refreshed(last, token, name, platform, now)) == m[last.id := token]
            == Entered(m, last)[last.id := token]
  {
  }

  lemma EnteredNew(m: map<string, string>, id: string, token: string, name: string, platform: string, now: string)
    requires IsTrimmed(id) && IsTrimmed(token)
    ensures Entered(m, Device(id, token, name, platform, now, now)) == m[id := token]
  {
  }

  lemma UpsertKeepsClean(devices: seq<Device>, id: string, token: string, name: string, platform: string, now: string)
    requires CleanIds(devices) && IsTrimmed(id)
    ensures CleanIds(Upsert(devices, id, token, name, platform, now))
  {
    hide IsTrimmed;
    UpsertKeeps(devices, id, token, name, platform, now);
  }

  lemma CleanIdsOfFirst(before: seq<Device>, last: Device)
    requires CleanIds(before + [last])
    ensures CleanIds(before) && IsTrimmed(last.id) && forall i :: 0 <= i < |before| ==> before[i].id != last.id
  {
    hide IsTrimmed;
    var devices := before + [last];
    assert devices[|before|] == last && forall i :: 0 <= i < |before| ==> devices[i] == before[i];
  }

  lemma UpsertOfLast(devices: seq<Device>, last: Device, id: string, token: string,
                     name: string, platform: string, now: string)
    requires last.id != id && IndexOfId(devices + [last], id) <= |devices|
    ensures Upsert(devices + [last], id, token, name, platform, now) ==
            Upsert(devices, id, token, name, platform, now) + [last]
  {
    var i, j := IndexOfId(devices + [last], id), IndexOfId(devices, id);
    assert i < |devices| && (devices + [last])[i] == devices[i];
    assert (devices + [last])[j] == devices[j];
    assert i == j;
  }

  /** With clean ids an upsert is one assignment in the map of credentials. */
  lemma {:induction false} UpsertIsAssignment(devices: seq<Device>, id: string, token: string,
                                              name: string, platform: string, now: string)
    requires CleanIds(devices) && IsTrimmed(id) && IsTrimmed(token)
    ensures AuthorizationMap(Upsert(devices, id, token, name, platform, now)) == AuthorizationMap(devices)[id := token]
    decreases |devices|
  {
    hide IsTrimmed, AuthorizationMap, Entered, CleanIds, Refreshed;
    if IndexOfId(devices, id) == |devices| {
      AuthorizationMapOfLast(devices, Device(id, token, name, platform, now, now));
      EnteredNew(AuthorizationMap(devices), id, token, name, platform, now);
    } else {
      var before, last := devices[..|devices| - 1], devices[|devices| - 1];
      assert devices == before + [last];
      CleanIdsOfFirst(before, last);
      AuthorizationMapOfLast(before, last);
      if last.id == id {
        var again := Refreshed(last, token, name, platform, now);
        assert Upsert(devices, id, token, name, platform, now) == before + [again];
        AuthorizationMapOfLast(before, again);
        EnteredAgain(AuthorizationMap(before), last, token, name, platform, now);
      } else {
        UpsertOfLast(before, last, id, token, name, platform, now);
        UpsertIsAssignment(before, id, token, name, platform, now);
        AuthorizationMapOfLast(Upsert(before, id, token, name, platform, now), last);
        EnteredBeside(AuthorizationMap(before), last, id, token);
      }
    }
  }

  // ---- the cache ----

  /** Fingerprints are compared for equality only; None stands for a missing file, and for "unknown". */
  type Fingerprint = Option<nat>

  datatype FingerprintRead = StatFailed | Stat(fingerprint: Fingerprint)
  datatype LoadRead = LoadFailed | Loaded(devices: seq<Device>)

  datatype Cache = Cache(credentials: map<string, string>, fingerprint: Fingerprint)

  function CredentialsOf(load: LoadRead): map<string, string> {
    match load
    case LoadFailed => map[]
    case Loaded(devices) => AuthorizationMap(devices)
  }

  /** A refresh that read `stat` first and, if it needed to, `load` afterwards. */
  function Refresh(c: Cache, stat: FingerprintRead, load: LoadRead): Cache {
    match stat
    case StatFailed => Cache(map[], None)
    case Stat(fingerprint) =>
      if fingerprint == c.fingerprint then c
      else Cache(CredentialsOf(load), if load.Loaded? then fingerprint else None)
  }

  /** A refresh that finds the fingerprint it knows changes nothing; one that finds another takes over what it can load
      and remembers that fingerprint; one that cannot read forgets everything. */
  lemma RefreshIs(c: Cache, stat: FingerprintRead, load: LoadRead)
    ensures stat == Stat(c.fingerprint) ==> Refresh(c, stat, load) == c
    ensures stat.Stat? && stat.fingerprint != c.fingerprint && load.Loaded? ==>
              Refresh(c, stat, load) == Cache(AuthorizationMap(load.devices), stat.fingerprint)
    ensures stat.StatFailed? || (stat.fingerprint != c.fingerprint && load.LoadFailed?) ==>
              Refresh(c, stat, load) == Cache(map[], None)
  {
  }

  predicate Holds(credentials: map<string, string>, id: string, token: string) {
    id in credentials && credentials[id] == token
  }

  class DeviceAuthorizationCache {
    var credentials: map<string, string>
    var fingerprint: Fingerprint
    var lastCheck: int
    const refreshInterval: nat

    function State(): Cache
      reads this
    {
      Cache(credentials, fingerprint)
    }

    constructor (initial: LoadRead, refreshInterval: nat, now: int)
      ensures State() == Cache(CredentialsOf(initial), None) && lastCheck == now
      ensures this.refreshInterval == refreshInterval
    {
      credentials, fingerprint, lastCheck := CredentialsOf(initial), None, now;
      this.refreshInterval := refreshInterval;
    }

    method ReplaceAfterWrite(devices: seq<Device>, now: int)
      modifies this
      ensures State() == Cache(AuthorizationMap(devices), None) && lastCheck == now
    {
      credentials := AuthorizationMap(devices);
      fingerprint := None;
      lastCheck := now;
    }

    /** At most one refresh per interval; the answer is what the credentials say afterwards. */
    method IsAuthorized(id: string, token: string, now: int, stat: FingerprintRead, load: LoadRead)
      returns (authorized: bool)
      modifies this
      ensures var asked := Trim(id) != "" && Trim(token) != "";
              var refreshes := asked && now - old(lastCheck) >= refreshInterval;
              && State() == (if refreshes then Refresh(old(State()), stat, load) else old(State()))
              && lastCheck == (if refreshes then now else old(lastCheck))
              && (authorized <==> asked && Holds(credentials, Trim(id), Trim(token)))
    {
      var id', token' := Trim(id), Trim(token);
      if id' == "" || token' == "" {
        return false;
      }
      if now - lastCheck >= refreshInterval {
        lastCheck := now;
        if stat == StatFailed {
          credentials, fingerprint := map[], None;
        } else if stat.fingerprint != fingerprint {
          if load.Loaded? {
            credentials := AuthorizationMap(load.devices);
            fingerprint := stat.fingerprint;
          } else {
            credentials, fingerprint := map[], None;
          }
        }
      }
      return id' in credentials && credentials[id'] == token';
    }
  }
}
