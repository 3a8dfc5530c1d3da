/** The pairing state of a running host, as requests change it under its lock. */
module PairingHost {
  import opened Wrappers
  import opened Text
  import opened DeviceStore
  import Model = Pairing
  import opened Pairing

  class AgentPairingState {
    var active: Credential
    var ticket: Option<Credential>
    var store: LoadRead
    const authorization: DeviceAuthorizationCache

    function Snapshot(): State
      reads this, authorization
    {
      State(active, ticket, store, authorization.State())
    }

    constructor (active: Credential, store: LoadRead, now: int)
      ensures Snapshot() == State(active, None, store, Cache(CredentialsOf(store), None))
      ensures fresh(authorization) && authorization.refreshInterval == 1000
    {
      this.active, this.ticket, this.store := active, None, store;
      authorization := new DeviceAuthorizationCache(store, 1000, now);
    }

    method Confirm(r: Request, w: World, clock: int) returns (out: Outcome)
      modifies this, authorization
      ensures (Snapshot(), out) == Model.Confirm(old(Snapshot()), r, w)
      ensures var drawn := w.token.Some? && w.code.Some? && w.pairingId.Some? && w.secret.Some?;
              && (if Knows(r, old(active)) && drawn then IsNext(active, w) else Snapshot() == old(Snapshot()))
              && (out.Confirmed? ==> Knows(r, old(active)) && drawn)
      ensures out == Refused(PairingIdMismatch) <==> r.pairingId != Some(old(active).pairingId)
      ensures out == Refused(CodeMismatch) <==>
                r.pairingId == Some(old(active).pairingId) && r.code != Some(old(active).code)
      ensures out == Refused(SecretMismatch) <==>
                r.pairingId == Some(old(active).pairingId) && r.code == Some(old(active).code)
                && r.secret != Some(old(active).secret)
      ensures out.Refused? ==> store == old(store) && authorization.State() == old(authorization.State())
      ensures out.Confirmed? ==> out.token == w.token.value && authorization.credentials == CredentialsOf(store)
    {
      ConfirmIs(Snapshot(), r, w);
      var mismatch := Matches(active, r);
      if mismatch.Some? {
        return Refused(mismatch.value);
      }
      if w.token == None {
        return Refused(NoRandomness);
      }
      if w.code == None || w.pairingId == None || w.secret == None {
        return Refused(NoRandomness);
      }
      var next := NextCredential(w);
      active := next;
      if w.hasCandidate {
        if w.ticketFails {
          return Refused(TicketNotWritten);
        }
        ticket := Some(next);
      }
      if store.LoadFailed? {
        return Refused(StoreNotReadable);
      }
      var devices := Record(store.devices, r.deviceId, w.token.value, r.deviceName, PlatformOf(r), w.now);
      if w.storeFails {
        return Refused(StoreNotWritten);
      }
      store := Loaded(devices);
      authorization.ReplaceAfterWrite(devices, clock);
      return Confirmed(w.token.value);
    }

    /** Any list of requests: when the random pairing ids never repeat, none is accepted twice; and from a store with
        clean ids, each device is authorized afterwards with the token of its last confirmed request. */
    method Serve(events: seq<Event>, clock: int, ghost seen: set<string>) returns (accepted: seq<string>)
      modifies this, authorization
      ensures Snapshot() == Run(old(Snapshot()), events)
      ensures accepted == AcceptedIds(old(Snapshot()), events)
      ensures old(active).pairingId in seen && FreshDraws(events, seen) ==>
                EachOnce(accepted, old(active).pairingId, seen)
      ensures Clean(old(Snapshot())) && CleanEvents(events) ==>
                && Clean(Snapshot())
                && forall id ::
                     Lookup(authorization.credentials, id) ==
                     LastToken(old(Snapshot()), events, id, Lookup(old(authorization.credentials), id))
    {
      hide Model.Confirm, Matches, DrawsWork, LastToken, Lookup, Clean, CleanEvents, EachOnce, FreshDraws;
      ghost var start := Snapshot();
      if start.active.pairingId in seen && FreshDraws(events, seen) {
        AcceptedAtMostOnce(start, events, seen);
      }
      if Clean(start) && CleanEvents(events) {
        LastTokenCounts(start, events);
      }
      accepted := [];
      assert events[0..] == events;
      for i := 0 to |events|
        invariant Run(Snapshot(), events[i..]) == Run(start, events)
        invariant accepted + AcceptedIds(Snapshot(), events[i..]) == AcceptedIds(start, events)
      {
        assert events[i..][1..] == events[i + 1..];
        var before := active.pairingId;
        var matched := Matches(active, events[i].request) == None && DrawsWork(events[i].world);
        var _ := Confirm(events[i].request, events[i].world, clock);
        ghost var more := AcceptedIds(Snapshot(), events[i + 1..]);
        if matched {
          assert accepted + ([before] + more) == accepted + [before] + more;
          accepted := accepted + [before];
        }
      }
      assert AcceptedIds(Snapshot(), events[|events|..]) == [];
    }

    /** Trimming before the cache trims again changes no answer. */
    method IsAuthorized(id: string, token: string, now: int, stat: FingerprintRead, load: LoadRead)
      returns (authorized: bool)
      modifies authorization
      ensures var refreshes := Trim(id) != "" && Trim(token) != ""
                               && now - old(authorization.lastCheck) >= authorization.refreshInterval;
              authorization.State() ==
              if refreshes then Refresh(old(authorization.State()), stat, load) else old(authorization.State())
      ensures authorized <==> Trim(id) != "" && Trim(token) != ""
                              && Holds(authorization.credentials, Trim(id), Trim(token))
    {
      TrimTwice(id);
      TrimTwice(token);
      authorized := authorization.IsAuthorized(Trim(id), Trim(token), now, stat, load);
    }
  }
}
