/** Who receives output and who does not, and that the handler and a subscription can always go on. */
module BaselineReach {
  import opened Text
  import opened Fanout
  import opened BaselineCutover

  // ---- nobody else receives output ----

  /** The device is no viewer, and no frame is on its way to it. */
  predicate IsAway(s: System, device: string) {
    !IsViewer(s, device) && !(s.producer.Sending? && device in s.producer.todo)
  }

  lemma StepKeepsAway(s: System, step: Step, device: string)
    requires Inv(s) && Enabled(s, step) && IsAway(s, device) && step != Subscribe(device)
    ensures IsAway(Next(s, step), device) && Inbox(Next(s, step), device) == Inbox(s, device)
  {
    hide Output, IsSuffix, InboxInv, BaselineInv;
    assert PhaseInv(s, device);
  }

  /** A device that left receives nothing more until it subscribes again. */
  lemma {:induction false} AwayReceivesNothing(s: System, steps: seq<Step>, end: System, device: string)
    requires Inv(s) && RunsTo(s, steps, end) && IsAway(s, device)
    requires Subscribe(device) !in steps
    ensures Inbox(end, device) == Inbox(s, device) && IsAway(end, device)
    decreases |steps|
  {
    hide Inv, IsAway, Enabled, Next;
    if steps != [] {
      assert steps[0] in steps;
      StepKeeps(s, steps[0]);
      StepKeepsAway(s, steps[0], device);
      AwayReceivesNothing(Next(s, steps[0]), steps[1..], end, device);
    }
  }

  /** Over every run: a device that unsubscribes while no frame is on its way to it receives nothing more until it
      subscribes again. */
  lemma NothingAfterUnsubscribe(session: string, steps: seq<Step>, s: System, device: string,
                                more: seq<Step>, end: System)
    requires RunsTo(Start(session), steps, s) && !(s.producer.Sending? && device in s.producer.todo)
    requires RunsTo(Next(s, Unsubscribe(device)), more, end) && Subscribe(device) !in more
    ensures Inbox(end, device) == Inbox(s, device)
  {
    EveryRunKeeps(session, steps, s);
    StepKeeps(s, Unsubscribe(device));
    AwayReceivesNothing(Next(s, Unsubscribe(device)), more, end, device);
  }

  // ---- whoever receives output was a viewer ----

  /** At some step of the run the viewers were read for event `n`, and the device was one of them. */
  ghost predicate WasRead(session: string, steps: seq<Step>, device: string, n: int) {
    exists k, mid ::
      && 0 <= k < |steps| && steps[k] == ReadViewers && RunsTo(Start(session), steps[..k], mid)
      && mid.producer == Numbered(n) && IsViewer(mid, device)
  }

  lemma WasReadStays(session: string, steps: seq<Step>, step: Step, device: string, n: int)
    requires WasRead(session, steps, device, n)
    ensures WasRead(session, steps + [step], device, n)
  {
    var k, mid :|
      && 0 <= k < |steps| && steps[k] == ReadViewers && RunsTo(Start(session), steps[..k], mid)
      && mid.producer == Numbered(n) && IsViewer(mid, device);
    var longer := steps + [step];
    assert longer[k] == ReadViewers && longer[..k] == steps[..k];
  }

  lemma {:induction false} LastStep(s: System, steps: seq<Step>, end: System) returns (before: System)
    requires RunsTo(s, steps, end) && steps != []
    ensures var n := |steps| - 1;
            RunsTo(s, steps[..n], before) && Enabled(before, steps[n]) && end == Next(before, steps[n])
    decreases |steps|
  {
    hide Enabled, Next;
    if |steps| == 1 {
      before := s;
      assert steps[..0] == [];
    } else {
      before := LastStep(Next(s, steps[0]), steps[1..], end);
      assert steps[..|steps| - 1][1..] == steps[1..][..|steps| - 2];
    }
  }

  /** Every live frame that a device has, or that is on its way to it, is for an event whose viewers it was among. */
  ghost predicate AllWereRead(session: string, steps: seq<Step>, s: System, device: string) {
    && (forall i :: 0 <= i < |Inbox(s, device)| && Inbox(s, device)[i].Live? ==>
          WasRead(session, steps, device, Inbox(s, device)[i].number))
    && (s.producer.Sending? && device in s.producer.todo ==> WasRead(session, steps, device, s.producer.number))
  }

  lemma ReadNow(session: string, init: seq<Step>, s: System, device: string)
    requires RunsTo(Start(session), init, s) && s.producer.Numbered? && IsViewer(s, device)
    ensures WasRead(session, init + [ReadViewers], device, s.producer.number)
  {
    var steps := init + [ReadViewers];
    assert steps[|init|] == ReadViewers && steps[..|init|] == init;
  }

  lemma StepKeepsRead(session: string, init: seq<Step>, s: System, step: Step, device: string)
    requires RunsTo(Start(session), init, s) && Enabled(s, step) && AllWereRead(session, init, s, device)
    ensures AllWereRead(session, init + [step], Next(s, step), device)
  {
    hide WasRead, Output, IsSuffix, RunsTo;
    var t := Next(s, step);
    forall n | WasRead(session, init, device, n)
      ensures WasRead(session, init + [step], device, n)
    {
      WasReadStays(session, init, step, device, n);
    }
    if step.ReadViewers? && IsViewer(s, device) {
      ReadNow(session, init, s, device);
    }
    StepGrows(s, step, device);
    forall i | 0 <= i < |Inbox(t, device)| && Inbox(t, device)[i].Live?
      ensures WasRead(session, init + [step], device, Inbox(t, device)[i].number)
    {
      if i < |Inbox(s, device)| {
        assert Inbox(t, device)[i] == Inbox(s, device)[i];
      } else {
        assert step == SendTo(device) && Inbox(t, device)[i].number == s.producer.number;
      }
    }
  }

  /** Over every run, each live frame in an inbox went to a device that was a viewer when the viewers were read for
      the frame's event. */
  lemma {:induction false} OnlyViewersReceive(session: string, steps: seq<Step>, s: System, device: string)
    requires RunsTo(Start(session), steps, s)
    ensures AllWereRead(session, steps, s, device)
    decreases |steps|
  {
    hide WasRead, Enabled, Next;
    if steps != [] {
      var n := |steps| - 1;
      var before := LastStep(Start(session), steps, s);
      OnlyViewersReceive(session, steps[..n], before, device);
      StepKeepsRead(session, steps[..n], before, steps[n], device);
      assert steps == steps[..n] + [steps[n]];
    }
  }

  // ---- nothing gets stuck ----

  /** Only the event handler has moved, and it waits for the next event. */
  predicate IsSettled(s: System, end: System) {
    && end.producer.Idle? && end.appended == s.appended && end.table.viewers == s.table.viewers
    && end.phases == s.phases && end.since == s.since && end.session == s.session
  }

  lemma {:induction false} SendingFinishes(s: System) returns (steps: seq<Step>, end: System)
    requires ProducerInv(s) && s.producer.Sending?
    ensures RunsTo(s, steps, end) && IsSettled(s, end) && ProducerInv(end) && end.begun == s.begun
    decreases |s.producer.todo|
  {
    hide Output;
    if s.producer.todo == {} {
      end := Next(s, Finish);
      steps := [Finish];
      assert RunsTo(end, steps[1..], end);
    } else {
      var device :| device in s.producer.todo;
      var next := Next(s, SendTo(device));
      StepKeepsProducer(s, SendTo(device));
      var more;
      more, end := SendingFinishes(next);
      steps := [SendTo(device)] + more;
      assert steps[1..] == more;
    }
  }

  lemma EventFinishes(s: System) returns (steps: seq<Step>, end: System)
    requires ProducerInv(s)
    ensures RunsTo(s, steps, end) && IsSettled(s, end) && ProducerInv(end) && end.begun == s.begun
  {
    match s.producer
    case Idle => steps, end := [], s;
    case Sending(_, _) => steps, end := SendingFinishes(s);
    case Numbered(_) =>
      StepKeepsProducer(s, ReadViewers);
      var more;
      more, end := SendingFinishes(Next(s, ReadViewers));
      steps := [ReadViewers] + more;
      assert steps[1..] == more;
  }

  lemma {:induction false} RunsJoin(s: System, first: seq<Step>, mid: System, second: seq<Step>, end: System)
    requires RunsTo(s, first, mid) && RunsTo(mid, second, end)
    ensures RunsTo(s, first + second, end)
    decreases |first|
  {
    hide Enabled, Next;
    if first == [] {
      assert first + second == second;
    } else {
      RunsJoin(Next(s, first[0]), first[1..], mid, second, end);
      assert (first + second)[1..] == first[1..] + second;
    }
  }

  /** From every reachable state the handler alone can send out all output that was appended. */
  lemma {:induction false} AllOutputGoesOut(s: System) returns (steps: seq<Step>, end: System)
    requires ProducerInv(s)
    ensures RunsTo(s, steps, end) && IsSettled(s, end) && end.begun == |s.appended|
    decreases |s.appended| - s.begun
  {
    hide ProducerInv, Enabled, Next, Output;
    var first, mid := EventFinishes(s);
    BegunIsBounded(mid);
    if mid.begun == |mid.appended| {
      steps, end := first, mid;
    } else {
      NumberTaken(mid);
      StepKeepsProducer(mid, TakeNumber);
      var more;
      more, end := AllOutputGoesOut(Next(mid, TakeNumber));
      var rest := [TakeNumber] + more;
      assert rest[1..] == more;
      RunsJoin(s, first, mid, rest, end);
      steps := first + rest;
    }
  }

  lemma BegunIsBounded(s: System)
    requires ProducerInv(s)
    ensures s.begun <= |s.appended|
  {
  }

  lemma NumberTaken(s: System)
    requires s.producer.Idle? && s.begun < |s.appended|
    ensures Enabled(s, TakeNumber)
    ensures var t := Next(s, TakeNumber);
            t.begun == s.begun + 1 && t.appended == s.appended && t.table.viewers == s.table.viewers
            && t.phases == s.phases && t.since == s.since && t.session == s.session
  {
  }

  /** From every state a device can subscribe and is sent a baseline with any tail of the output. */
  lemma BaselineIsDelivered(s: System, device: string, data: string) returns (end: System)
    requires IsSuffix(data, Concat(s.appended))
    ensures RunsTo(s, [Subscribe(device), ReadNumber(device), Snapshot(device, data), SendBaseline(device)], end)
    ensures IsViewer(end, device)
    ensures Inbox(end, device) ==
            Inbox(s, device) + [Baseline(CurrentSeq(s.table, s.session), |Concat(s.appended)|, data)]
  {
    hide Concat, IsSuffix, RunsTo;
    var a := Next(s, Subscribe(device));
    var b := Next(a, ReadNumber(device));
    var c := Next(b, Snapshot(device, data));
    end := Next(c, SendBaseline(device));
    assert s.appended[..|s.appended|] == s.appended;
    FourSteps(s, a, b, c, end, [Subscribe(device), ReadNumber(device), Snapshot(device, data), SendBaseline(device)]);
  }

  lemma FourSteps(s: System, a: System, b: System, c: System, end: System, steps: seq<Step>)
    requires |steps| == 4 && Enabled(s, steps[0]) && a == Next(s, steps[0])
    requires Enabled(a, steps[1]) && b == Next(a, steps[1])
    requires Enabled(b, steps[2]) && c == Next(b, steps[2])
    requires Enabled(c, steps[3]) && end == Next(c, steps[3])
    ensures RunsTo(s, steps, end)
  {
    hide Enabled, Next;
    assert RunsTo(end, steps[4..], end);
    assert steps[3..][1..] == steps[4..] && RunsTo(c, steps[3..], end);
    assert steps[2..][1..] == steps[3..] && RunsTo(b, steps[2..], end);
    assert steps[1..][1..] == steps[2..] && RunsTo(a, steps[1..], end);
  }

  /** A viewer that subscribes again keeps the subscription it has. */
  lemma SubscribingAgainKeeps(s: System, device: string)
    requires IsViewer(s, device)
    ensures var t := Next(s, Subscribe(device));
            IsViewer(t, device) && Since(t, device) == Since(s, device) && Inbox(t, device) == Inbox(s, device)
  {
  }
}
