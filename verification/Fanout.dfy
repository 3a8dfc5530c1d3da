/** Per-session viewers and output numbers of the headless terminals. */
module Fanout {

  /** Sessions without viewers have no entry; a session without output is numbered from 0. */
  datatype Table = Table(viewers: map<string, set<string>>, seqs: map<string, int>)

  const EMPTY := Table(map[], map[])

  function Viewers(t: Table, session: string): set<string> {
    if session in t.viewers then t.viewers[session] else {}
  }

  function CurrentSeq(t: Table, session: string): int {
    if session in t.seqs then t.seqs[session] else 0
  }

  function TakeSeq(t: Table, session: string): Table {
    t.(seqs := t.seqs[session := CurrentSeq(t, session) + 1])
  }

  function WithViewer(t: Table, session: string, device: string): Table {
    t.(viewers := t.viewers[session := Viewers(t, session) + {device}])
  }

  function WithoutViewer(t: Table, session: string, device: string): Table {
    var rest := Viewers(t, session) - {device};
    t.(viewers := if rest == {} then t.viewers - {session} else t.viewers[session := rest])
  }

  function WithoutDevice(t: Table, device: string): Table {
    t.(viewers := map s | s in t.viewers && t.viewers[s] - {device} != {} :: t.viewers[s] - {device})
  }

  function WithoutSession(t: Table, session: string): Table {
    Table(t.viewers - {session}, t.seqs - {session})
  }

  /** What each operation does to one session and one device, and that it leaves everything else alone. */
  lemma TableLaws(t: Table, session: string, device: string, s: string, d: string)
    ensures d in Viewers(WithViewer(t, session, device), s) <==> d in Viewers(t, s) || (s == session && d == device)
    ensures d in Viewers(WithoutViewer(t, session, device), s) <==> d in Viewers(t, s) && !(s == session && d == device)
    ensures d in Viewers(WithoutDevice(t, device), s) <==> d in Viewers(t, s) && d != device
    ensures d in Viewers(WithoutSession(t, session), s) <==> d in Viewers(t, s) && s != session
    ensures TakeSeq(t, session).viewers == t.viewers
    ensures CurrentSeq(TakeSeq(t, session), s) == CurrentSeq(t, s) + if s == session then 1 else 0
    ensures CurrentSeq(WithoutSession(t, session), s) == if s == session then 0 else CurrentSeq(t, s)
    ensures WithViewer(t, session, device).seqs == WithoutViewer(t, session, device).seqs
            == WithoutDevice(t, device).seqs == t.seqs
  {
  }

  /** No session is kept with no viewers. */
  predicate NoEmptyEntry(t: Table) {
    forall s :: s in t.viewers ==> t.viewers[s] != {}
  }

  lemma NoEmptyEntryStays(t: Table, session: string, device: string)
    requires NoEmptyEntry(t)
    ensures NoEmptyEntry(WithViewer(t, session, device)) && NoEmptyEntry(WithoutViewer(t, session, device))
    ensures NoEmptyEntry(WithoutDevice(t, device)) && NoEmptyEntry(WithoutSession(t, session))
  {
  }

  class TerminalFanout {
    var viewers: map<string, set<string>>
    var outputSeq: map<string, int>

    function State(): Table
      reads this
    {
      Table(viewers, outputSeq)
    }

    constructor ()
      ensures State() == EMPTY
    {
      viewers, outputSeq := map[], map[];
    }

    /** Numbers start at 1 and go up by one; each number is handed out once per session. */
    method NextSeq(session: string) returns (next: int)
      modifies this
      ensures next == CurrentSeq(old(State()), session) + 1 == CurrentSeq(State(), session)
      ensures State() == TakeSeq(old(State()), session)
    {
      next := (if session in outputSeq then outputSeq[session] else 0) + 1;
      outputSeq := outputSeq[session := next];
    }

    method AddViewer(session: string, device: string)
      modifies this
      ensures State() == WithViewer(old(State()), session, device)
      ensures Viewers(State(), session) == Viewers(old(State()), session) + {device}
    {
      var devices := if session in viewers then viewers[session] else {};
      viewers := viewers[session := devices + {device}];
    }

    method RemoveViewer(session: string, device: string)
      modifies this
      ensures State() == WithoutViewer(old(State()), session, device)
      ensures Viewers(State(), session) == Viewers(old(State()), session) - {device}
    {
      if session in viewers {
        viewers := viewers[session := viewers[session] - {device}];
        if viewers[session] == {} {
          viewers := viewers - {session};
        }
      } else {
        assert viewers - {session} == viewers;
      }
    }

    method RemoveDevice(device: string)
      modifies this
      ensures State() == WithoutDevice(old(State()), device)
      ensures forall s :: Viewers(State(), s) == Viewers(old(State()), s) - {device}
    {
      var todo := viewers.Keys;
      while todo != {}
        invariant todo <= viewers.Keys == old(viewers).Keys && outputSeq == old(outputSeq)
        invariant forall s :: s in viewers ==>
          viewers[s] == if s in todo then old(viewers)[s] else old(viewers)[s] - {device}
        decreases todo
      {
        var s :| s in todo;
        viewers := viewers[s := viewers[s] - {device}];
        todo := todo - {s};
      }
      viewers := map s | s in viewers && viewers[s] != {} :: viewers[s];
    }

    /** At exit the session's viewers and its numbering are forgotten. */
    method ClearSession(session: string)
      modifies this
      ensures State() == WithoutSession(old(State()), session)
      ensures Viewers(State(), session) == {} && CurrentSeq(State(), session) == 0
    {
      viewers := viewers - {session};
      outputSeq := outputSeq - {session};
    }
  }
}
