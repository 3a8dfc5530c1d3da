/** Pairing: one active credential, rotated by every request that matches it. */
module Pairing {
  import opened Wrappers
  import opened Text
  import opened DeviceStore

  datatype Credential = Credential(pairingId: string, code: string, secret: string)

  datatype Request = Request(pairingId: Option<string>, code: Option<string>, secret: Option<string>,
                             deviceId: string, deviceName: string, platform: Option<string>)

  datatype Error =
    | PairingIdMismatch | CodeMismatch | SecretMismatch | NoRandomness | TicketNotWritten
    | StoreNotReadable | StoreNotWritten

  datatype Outcome = Confirmed(token: string) | Refused(error: Error)

  /** What the surroundings do to one request: four random draws in order, and the files. */
  datatype World = World(
    token: Option<string>, code: Option<string>, pairingId: Option<string>, secret: Option<string>,
    hasCandidate: bool, ticketFails: bool, storeFails: bool, now: string)

  datatype State = State(active: Credential, ticket: Option<Credential>, store: LoadRead, cache: Cache)

  function Matches(c: Credential, r: Request): Option<Error> {
    if r.pairingId != Some(c.pairingId) then Some(PairingIdMismatch)
    else if r.code != Some(c.code) then Some(CodeMismatch)
    else if r.secret != Some(c.secret) then Some(SecretMismatch)
    else None
  }

  /** The first six characters of a random token. */
  function CodeOf(token: string): string {
    if |token| <= 6 then token else token[..6]
  }

  predicate DrawsWork(w: World) {
    w.token.Some? && w.code.Some? && w.pairingId.Some? && w.secret.Some?
  }

  function NextCredential(w: World): Credential
    requires DrawsWork(w)
  {
    Credential(w.pairingId.value, CodeOf(w.code.value), w.secret.value)
  }

  function PlatformOf(r: Request): string {
    if r.platform.Some? then r.platform.value else ""
  }

  function Confirm(s: State, r: Request, w: World): (State, Outcome) {
    var mismatch := Matches(s.active, r);
    if mismatch.Some? then (s, Refused(mismatch.value))
    else if !DrawsWork(w) then (s, Refused(NoRandomness))
    else
      var rotated := s.(active := NextCredential(w));
      if w.hasCandidate && w.ticketFails then (rotated, Refused(TicketNotWritten))
      else
        var announced := if w.hasCandidate then rotated.(ticket := Some(rotated.active)) else rotated;
        if s.store.LoadFailed? then (announced, Refused(StoreNotReadable))
        else if w.storeFails then (announced, Refused(StoreNotWritten))
        else
          var devices := Upsert(s.store.devices, r.deviceId, w.token.value, r.deviceName, PlatformOf(r), w.now);
          (announced.(store := Loaded(devices), cache := Cache(AuthorizationMap(devices), None)),
           Confirmed(w.token.value))
  }

  // ---- one request ----

  /** The request names the credential's pairing id, its code and its secret. */
  predicate Knows(r: Request, c: Credential) {
    r.pairingId == Some(c.pairingId) && r.code == Some(c.code) && r.secret == Some(c.secret)
  }

  /** The credential that a request which is accepted leaves: the drawn pairing id, the first six characters of the
      drawn code, and the drawn secret. */
  predicate IsNext(c: Credential, w: World) {
    && w.pairingId == Some(c.pairingId) && w.secret == Some(c.secret)
    && w.code.Some? && c.code <= w.code.value && |c.code| == if |w.code.value| < 6 then |w.code.value| else 6
  }

  /** What a request does, decided by its parts: the first part that differs is named; with all three right and the
      four draws made, the credential is replaced, and the request succeeds exactly when the files can be used. */
  lemma ConfirmIs(s: State, r: Request, w: World)
    ensures var (t, out) := Confirm(s, r, w);
            && (out == Refused(PairingIdMismatch) <==> r.pairingId != Some(s.active.pairingId))
            && (out == Refused(CodeMismatch) <==>
                  r.pairingId == Some(s.active.pairingId) && r.code != Some(s.active.code))
            && (out == Refused(SecretMismatch) <==>
                  && r.pairingId == Some(s.active.pairingId) && r.code == Some(s.active.code)
                  && r.secret != Some(s.active.secret))
            && (out == Refused(NoRandomness) <==>
                  && Knows(r, s.active)
                  && (w.token == None || w.code == None || w.pairingId == None || w.secret == None))
            && (Accepted(s, r, w) <==>
                  Knows(r, s.active) && w.token.Some? && w.code.Some? && w.pairingId.Some? && w.secret.Some?)
            && (if Accepted(s, r, w) then IsNext(t.active, w) else t == s)
            && (out == Refused(TicketNotWritten) <==> Accepted(s, r, w) && w.hasCandidate && w.ticketFails)
            && (out == Refused(StoreNotReadable) <==>
                  Accepted(s, r, w) && !(w.hasCandidate && w.ticketFails) && s.store.LoadFailed?)
            && (out == Refused(StoreNotWritten) <==>
                  Accepted(s, r, w) && !(w.hasCandidate && w.ticketFails) && s.store.Loaded? && w.storeFails)
            && (out.Confirmed? <==>
                  Accepted(s, r, w) && !(w.hasCandidate && w.ticketFails) && s.store.Loaded? && !w.storeFails)
            && (t.ticket == if Accepted(s, r, w) && w.hasCandidate && !w.ticketFails then Some(t.active) else s.ticket)
  {
  }

  /** A success stores the device under its id with the drawn token, and the name and platform it gave. */
  lemma ConfirmedStores(s: State, r: Request, w: World)
    requires Confirm(s, r, w).1.Confirmed?
    ensures var t := Confirm(s, r, w).0;
            && w.token.Some? && Confirm(s, r, w).1.token == w.token.value
            && s.store.Loaded? && t.store.Loaded?
            && t.store.devices == Upsert(s.store.devices, r.deviceId, w.token.value, r.deviceName,
                                         if r.platform.Some? then r.platform.value else "", w.now)
            && t.cache == Cache(CredentialsOf(t.store), None)
  {
  }

  /** The request got past matching and rotated the credential, whatever failed afterwards. */
  predicate Accepted(s: State, r: Request, w: World) {
    Matches(s.active, r) == None && DrawsWork(w)
  }

  /** A request that is not accepted, a failed draw among them, changes nothing. */
  lemma UnacceptedChangesNothing(s: State, r: Request, w: World)
    requires !Accepted(s, r, w)
    ensures Confirm(s, r, w).0 == s && Confirm(s, r, w).1.Refused?
  {
  }

  /** An accepted request replaces the credential, and only the ticket it published can name the new one;
      a failed write leaves the stored devices and the cache as they were. */
  lemma AcceptedRotates(s: State, r: Request, w: World)
    requires Accepted(s, r, w)
    ensures var (t, out) := Confirm(s, r, w);
            && t.active == NextCredential(w)
            && (t.ticket == s.ticket || t.ticket == Some(t.active))
            && (out.Refused? ==> t.store == s.store && t.cache == s.cache)
            && (out.Confirmed? ==> out.token == w.token.value && (w.hasCandidate ==> t.ticket == Some(t.active)))
  {
  }

  /** After a success the cache holds the new token for the device exactly when no later stored device
      with the same trimmed id holds another; ids stay unique and pairing times are kept. */
  lemma ConfirmedAuthorizesIff(s: State, r: Request, w: World)
    requires Confirm(s, r, w).1.Confirmed?
    requires Trim(r.deviceId) != "" && Trim(w.token.value) != "" && UniqueIds(s.store.devices)
    ensures var t := Confirm(s, r, w).0;
            var i := IndexOfId(s.store.devices, r.deviceId);
            && t.cache.credentials == CredentialsOf(t.store) && UniqueIds(t.store.devices)
            && (Holds(t.cache.credentials, Trim(r.deviceId), Trim(w.token.value)) <==>
                  forall j :: i < j < |s.store.devices| && Decides(s.store.devices, j, Trim(r.deviceId)) ==>
                    Trim(s.store.devices[j].token) == Trim(w.token.value))
            && (forall j :: 0 <= j < |s.store.devices| ==> t.store.devices[j].pairedAt == s.store.devices[j].pairedAt)
  {
    UpsertKeeps(s.store.devices, r.deviceId, w.token.value, r.deviceName, PlatformOf(r), w.now);
    UpsertAuthorizesIff(s.store.devices, r.deviceId, w.token.value, r.deviceName, PlatformOf(r), w.now);
  }

  // ---- runs ----

  datatype Event = Event(request: Request, world: World)

  function Run(s: State, events: seq<Event>): State
    decreases |events|
  {
    if events == [] then s else Run(Confirm(s, events[0].request, events[0].world).0, events[1..])
  }

  /** The pairing ids with which requests of the run were accepted, in order. */
  function AcceptedIds(s: State, events: seq<Event>): seq<string>
    decreases |events|
  {
    if events == [] then []
    else
      var e := events[0];
      var rest := AcceptedIds(Confirm(s, e.request, e.world).0, events[1..]);
      if Accepted(s, e.request, e.world) then [s.active.pairingId] + rest else rest
  }

  /** Random pairing ids never repeat, and differ from those seen before. */
  predicate FreshDraws(events: seq<Event>, seen: set<string>) {
    if events == [] then true
    else
      match events[0].world.pairingId
      case None => FreshDraws(events[1..], seen)
      case Some(id) => id !in seen && FreshDraws(events[1..], seen + {id})
  }

  /** Request `k` of the run gave the code and the secret of the credential then active, whose pairing id is `id`. */
  ghost predicate KnewAt(s: State, events: seq<Event>, k: nat, id: string) {
    && k < |events|
    && Knows(events[k].request, Run(s, events[..k]).active)
    && Run(s, events[..k]).active.pairingId == id
  }

  lemma KnewLater(s: State, events: seq<Event>, k: nat, id: string)
    requires events != [] && KnewAt(Confirm(s, events[0].request, events[0].world).0, events[1..], k, id)
    ensures KnewAt(s, events, k + 1, id)
  {
    hide Confirm, Knows;
    assert events[..k + 1][1..] == events[1..][..k];
    assert events[k + 1] == events[1..][k];
  }

  /** Every pairing id that a run accepted came in a request that also gave the code and the secret then active. */
  lemma {:induction false} AcceptedKnew(s: State, events: seq<Event>, i: nat)
    requires i < |AcceptedIds(s, events)|
    ensures exists k: nat :: KnewAt(s, events, k, AcceptedIds(s, events)[i])
    decreases |events|
  {
    var e := events[0];
    var t := Confirm(s, e.request, e.world).0;
    var accepted := Accepted(s, e.request, e.world);
    if accepted && i == 0 {
      ConfirmIs(s, e.request, e.world);
      assert events[..0] == [];
      assert AcceptedIds(s, events)[i] == s.active.pairingId;
      var first: nat := 0;
      assert KnewAt(s, events, first, s.active.pairingId);
    } else {
      var j := if accepted then i - 1 else i;
      assert AcceptedIds(s, events)[i] == AcceptedIds(t, events[1..])[j];
      hide Accepted, Confirm, KnewAt;
      AcceptedKnew(t, events[1..], j);
      var k: nat :| KnewAt(t, events[1..], k, AcceptedIds(t, events[1..])[j]);
      KnewLater(s, events, k, AcceptedIds(t, events[1..])[j]);
      var next: nat := k + 1;
      assert KnewAt(s, events, next, AcceptedIds(s, events)[i]);
    }
  }

  /** No id occurs twice, and only the active one was seen before. */
  ghost predicate EachOnce(ids: seq<string>, active: string, seen: set<string>) {
    && (forall i, j :: 0 <= i < j < |ids| ==> ids[i] != ids[j])
    && (forall i :: 0 <= i < |ids| ==> ids[i] == active || ids[i] !in seen)
  }

  lemma EachOnceAfterRotation(ids: seq<string>, active: string, next: string, seen: set<string>)
    requires active in seen && next !in seen && EachOnce(ids, next, seen + {next})
    ensures EachOnce([active] + ids, active, seen)
  {
    var all := [active] + ids;
    assert forall i :: 0 < i < |all| ==> all[i] == ids[i - 1];
  }

  /** Over every run with never-repeating random values, each credential is accepted at most once. */
  lemma {:induction false} AcceptedAtMostOnce(s: State, events: seq<Event>, seen: set<string>)
    requires s.active.pairingId in seen && FreshDraws(events, seen)
    ensures EachOnce(AcceptedIds(s, events), s.active.pairingId, seen)
    decreases |events|
  {
    if events != [] {
      var e, rest := events[0], events[1..];
      var t := Confirm(s, e.request, e.world).0;
      var now := if e.world.pairingId.Some? then seen + {e.world.pairingId.value} else seen;
      if Accepted(s, e.request, e.world) {
        AcceptedRotates(s, e.request, e.world);
        AcceptedAtMostOnce(t, rest, now);
        EachOnceAfterRotation(AcceptedIds(t, rest), s.active.pairingId, t.active.pairingId, seen);
      } else {
        UnacceptedChangesNothing(s, e.request, e.world);
        AcceptedAtMostOnce(t, rest, now);
      }
    }
  }

  /** A request that was accepted once is refused at every later point of the run. */
  lemma {:induction false} ReplayIsRefused(s: State, first: Event, events: seq<Event>, seen: set<string>, w: World)
    requires Accepted(s, first.request, first.world)
    requires s.active.pairingId in seen && FreshDraws([first] + events, seen)
    ensures Confirm(Run(Confirm(s, first.request, first.world).0, events), first.request, w).1.Refused?
  {
    var t := Confirm(s, first.request, first.world).0;
    AcceptedRotates(s, first.request, first.world);
    assert ([first] + events)[1..] == events;
    ActiveStaysFresh(t, events, seen + {first.world.pairingId.value}, s.active.pairingId);
  }

  lemma {:induction false} ActiveStaysFresh(s: State, events: seq<Event>, seen: set<string>, spent: string)
    requires spent in seen && s.active.pairingId in seen && s.active.pairingId != spent && FreshDraws(events, seen)
    ensures Run(s, events).active.pairingId != spent
    decreases |events|
  {
    if events != [] {
      var e := events[0];
      var now := if e.world.pairingId.Some? then seen + {e.world.pairingId.value} else seen;
      if Accepted(s, e.request, e.world) {
        AcceptedRotates(s, e.request, e.world);
      } else {
        UnacceptedChangesNothing(s, e.request, e.world);
      }
      ActiveStaysFresh(Confirm(s, e.request, e.world).0, events[1..], now, spent);
    }
  }

  // ---- which token counts ----

  /** The device id of a pairing message: the envelope's or the payload's, trimmed; both must agree. */
  function HandshakeId(envelope: Option<string>, payload: Option<string>): Option<string> {
    var e, p := NonBlank(envelope), NonBlank(payload);
    if e.Some? && p.Some? && e != p then None else if e.Some? then e else p
  }

  function NonBlank(s: Option<string>): Option<string> {
    if s.Some? && Trim(s.value) != "" then Some(Trim(s.value)) else None
  }

  /** Every id that reaches a pairing request is trimmed and not blank. */
  lemma HandshakeIdIsTrimmed(envelope: Option<string>, payload: Option<string>)
    ensures HandshakeId(envelope, payload).Some? ==>
              var id := HandshakeId(envelope, payload).value;
              && IsTrimmed(id)
              && (if envelope.Some? && Trim(envelope.value) != "" then id == Trim(envelope.value)
                  else payload.Some? && id == Trim(payload.value))
    ensures var e := envelope.Some? && Trim(envelope.value) != "";
            var p := payload.Some? && Trim(payload.value) != "";
            HandshakeId(envelope, payload) == None <==>
              (!e && !p) || (e && p && Trim(envelope.value) != Trim(payload.value))
  {
    if envelope.Some? {
      TrimTwice(envelope.value);
    }
    if payload.Some? {
      TrimTwice(payload.value);
    }
  }

  /** The stored ids are clean and the cache is the map of the stored devices. */
  ghost predicate Clean(s: State) {
    && (s.store.Loaded? ==> CleanIds(s.store.devices))
    && s.cache.credentials == CredentialsOf(s.store)
  }

  /** Ids as the handshake gives them, and tokens that are not blank and need no trimming. */
  predicate CleanEvents(events: seq<Event>) {
    forall i :: 0 <= i < |events| ==>
      && IsTrimmed(events[i].request.deviceId)
      && (events[i].world.token.Some? ==> IsTrimmed(events[i].world.token.value))
  }

  /** The token of the last confirmed request of `id` in the run, or `before` when there is none. */
  function LastToken(s: State, events: seq<Event>, id: string, before: Option<string>): Option<string>
    decreases |events|
  {
    if events == [] then before
    else
      var e := events[0];
      var (t, out) := Confirm(s, e.request, e.world);
      LastToken(t, events[1..], id, if out.Confirmed? && e.request.deviceId == id then Some(out.token) else before)
  }

  lemma ConfirmIsAssignment(s: State, r: Request, w: World)
    requires Clean(s) && IsTrimmed(r.deviceId) && (w.token.Some? ==> IsTrimmed(w.token.value))
    ensures var (t, out) := Confirm(s, r, w);
            && Clean(t)
            && t.cache.credentials ==
               if out.Confirmed? then s.cache.credentials[r.deviceId := out.token] else s.cache.credentials
  {
    hide Upsert, AuthorizationMap, CleanIds, IsTrimmed;
    if Confirm(s, r, w).1.Confirmed? {
      UpsertKeepsClean(s.store.devices, r.deviceId, w.token.value, r.deviceName, PlatformOf(r), w.now);
      UpsertIsAssignment(s.store.devices, r.deviceId, w.token.value, r.deviceName, PlatformOf(r), w.now);
    }
  }

  /** Over every run of requests the store keeps clean ids, and the credentials hold for each id exactly the token
      of its last confirmed request, or what they held before when it had none. */
  lemma {:induction false} LastTokenCounts(s: State, events: seq<Event>)
    requires Clean(s) && CleanEvents(events)
    ensures Clean(Run(s, events))
    ensures forall id :: Lookup(Run(s, events).cache.credentials, id) ==
                         LastToken(s, events, id, Lookup(s.cache.credentials, id))
    decreases |events|
  {
    hide Confirm, Clean, IsTrimmed;
    if events != [] {
      var e := events[0];
      var (t, out) := Confirm(s, e.request, e.world);
      ConfirmIsAssignment(s, e.request, e.world);
      LastTokenCounts(t, events[1..]);
    }
  }
}
