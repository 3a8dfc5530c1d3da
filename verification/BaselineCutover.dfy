/** One producer numbering and sending a session's output while devices subscribe and fetch baselines.
    Every step below is atomic; any interleaving of them is a run. */
module BaselineCutover {
  import opened Text
  import opened Fanout

  /** A frame as it reaches a device. */
  datatype Frame =
    | Live(number: int, bufferEnd: nat, text: string)
    | Baseline(number: int, bufferEnd: nat, data: string)

  /** Where the event handler is; `chunk` counts the events it has begun. */
  datatype Producer = Idle | Numbered(number: int) | Sending(number: int, todo: set<string>)

  /** Where one device's subscription is. */
  datatype Phase =
    | Out
    | Added
    | Counted(number: int)
    | Snapped(number: int, upto: nat, data: string)

  /** `since` is the length of a device's inbox when its present subscription began. */
  datatype System = System(
    session: string,
    table: Table,
    appended: seq<string>,
    begun: nat,
    producer: Producer,
    phases: map<string, Phase>,
    inboxes: map<string, seq<Frame>>,
    since: map<string, nat>)

  function Start(session: string): System {
    System(session, EMPTY, [], 0, Idle, map[], map[], map[])
  }

  function PhaseOf(s: System, device: string): Phase {
    if device in s.phases then s.phases[device] else Out
  }

  function Inbox(s: System, device: string): seq<Frame> {
    if device in s.inboxes then s.inboxes[device] else []
  }

  predicate IsViewer(s: System, device: string) {
    device in Viewers(s.table, s.session)
  }

  function Since(s: System, device: string): nat {
    if device in s.since then s.since[device] else 0
  }

  /** All output of the first `n` chunks, and the buffer end after them. */
  function Output(s: System, n: nat): string
    requires n <= |s.appended|
  {
    Concat(s.appended[..n])
  }

  predicate IsSuffix(tail: string, text: string) {
    |tail| <= |text| && text[|text| - |tail|..] == tail
  }

  datatype Step =
    | Append(text: string)
    | TakeNumber
    | ReadViewers
    | SendTo(device: string)
    | Finish
    | Subscribe(device: string)
    | ReadNumber(device: string)
    | Snapshot(device: string, data: string)
    | SendBaseline(device: string)
    | Unsubscribe(device: string)
    | Elsewhere(other: string, device: string, op: Other)

  /** What other sessions do to the shared table. */
  datatype Other = OtherNumber | OtherAdd | OtherRemove | OtherClear

  predicate Enabled(s: System, step: Step) {
    match step
    case Append(text) => text != ""
    case TakeNumber => s.producer.Idle? && s.begun < |s.appended|
    case ReadViewers => s.producer.Numbered?
    case SendTo(device) => s.producer.Sending? && device in s.producer.todo && 0 < s.begun <= |s.appended|
    case Finish => s.producer.Sending? && s.producer.todo == {}
    case Subscribe(_) => true
    case ReadNumber(device) => PhaseOf(s, device).Added?
    // A snapshot holds a tail of everything appended: the ring and the request bound its length.
    case Snapshot(device, data) => PhaseOf(s, device).Counted? && IsSuffix(data, Concat(s.appended))
    case SendBaseline(device) => PhaseOf(s, device).Snapped? && PhaseOf(s, device).upto <= |s.appended|
    case Unsubscribe(_) => true
    case Elsewhere(other, _, _) => other != s.session
  }

  function Deliver(s: System, device: string, frame: Frame): System {
    s.(inboxes := s.inboxes[device := Inbox(s, device) + [frame]])
  }

  function Next(s: System, step: Step): System
    requires Enabled(s, step)
  {
    match step
    case Append(text) => s.(appended := s.appended + [text])
    case TakeNumber =>
      var table := TakeSeq(s.table, s.session);
      s.(table := table, begun := s.begun + 1, producer := Numbered(CurrentSeq(table, s.session)))
    case ReadViewers =>
      s.(producer := Sending(s.producer.number, Viewers(s.table, s.session)))
    case SendTo(device) =>
      var frame := Live(s.producer.number, |Output(s, s.begun)|, s.appended[s.begun - 1]);
      Deliver(s, device, frame).(producer := s.producer.(todo := s.producer.todo - {device}))
    case Finish => s.(producer := Idle)
    case Subscribe(device) =>
      s.(table := WithViewer(s.table, s.session, device), phases := s.phases[device := Added],
         since := if IsViewer(s, device) then s.since else s.since[device := |Inbox(s, device)|])
    case ReadNumber(device) =>
      s.(phases := s.phases[device := Counted(CurrentSeq(s.table, s.session))])
    case Snapshot(device, data) =>
      s.(phases := s.phases[device := Snapped(PhaseOf(s, device).number, |s.appended|, data)])
    case SendBaseline(device) =>
      var snap := PhaseOf(s, device);
      Deliver(s, device, Baseline(snap.number, |Output(s, snap.upto)|, snap.data))
    case Unsubscribe(device) =>
      s.(table := WithoutViewer(s.table, s.session, device), phases := s.phases[device := Out])
    case Elsewhere(other, device, op) =>
      s.(table :=
        match op
        case OtherNumber => TakeSeq(s.table, other)
        case OtherAdd => WithViewer(s.table, other, device)
        case OtherRemove => WithoutViewer(s.table, other, device)
        case OtherClear => WithoutSession(s.table, other))
  }

  /** The state after `steps`, when each of them was possible. */
  ghost predicate RunsTo(s: System, steps: seq<Step>, end: System)
    decreases |steps|
  {
    if steps == [] then s == end
    else Enabled(s, steps[0]) && RunsTo(Next(s, steps[0]), steps[1..], end)
  }

  // ---- the invariant ----

  /** Event `n` has its number but its frame has not left for `device` yet. */
  predicate InFlight(s: System, device: string, n: int) {
    && n == s.begun
    && (s.producer.Numbered? || (s.producer.Sending? && device in s.producer.todo))
  }

  predicate HasNumber(frames: seq<Frame>, n: int) {
    exists i :: 0 <= i < |frames| && frames[i].Live? && frames[i].number == n
  }

  /** A live frame carries the chunk it is numbered after and the buffer end behind that chunk. */
  predicate Carries(s: System, frame: Frame) {
    frame.Live? ==>
      && 1 <= frame.number <= s.begun <= |s.appended|
      && frame.text == s.appended[frame.number - 1] && frame.bufferEnd == |Output(s, frame.number)|
  }

  ghost predicate Increasing(frames: seq<Frame>) {
    forall i, j :: 0 <= i < j < |frames| && frames[i].Live? && frames[j].Live? ==> frames[i].number < frames[j].number
  }

  ghost predicate InboxInv(s: System, device: string) {
    var frames := Inbox(s, device);
    && (forall i :: 0 <= i < |frames| ==> Carries(s, frames[i]))
    && (forall i :: 0 <= i < |frames| && frames[i].Live? && InFlight(s, device, s.begun) ==> frames[i].number < s.begun)
    && Increasing(frames)
  }

  /** Everything numbered after `q` has been sent to the device or is about to be. */
  ghost predicate SentSince(s: System, device: string, q: int) {
    && 0 <= q <= s.begun
    && forall n :: q < n <= s.begun ==> HasNumber(Inbox(s, device), n) || InFlight(s, device, n)
  }

  ghost predicate PhaseInv(s: System, device: string) {
    var phase := PhaseOf(s, device);
    && (!phase.Out? ==> IsViewer(s, device))
    && (phase.Counted? ==> SentSince(s, device, phase.number))
    && (phase.Snapped? ==>
          && SentSince(s, device, phase.number)
          && phase.number <= phase.upto <= |s.appended|
          && IsSuffix(phase.data, Output(s, phase.upto)))
  }

  /** The baseline's data is a tail of the first `upto` chunks, its end is theirs, and its number is no larger. */
  predicate IsTailOf(s: System, frame: Frame, upto: nat) {
    && frame.Baseline? && 0 <= frame.number <= upto <= |s.appended| && frame.number <= s.begun
    && frame.bufferEnd == |Output(s, upto)| && IsSuffix(frame.data, Output(s, upto))
  }

  /** Frame `b` came with the present subscription of the device. */
  predicate IsCurrent(s: System, device: string, b: nat) {
    IsViewer(s, device) && Since(s, device) <= b
  }

  ghost predicate BaselineInv(s: System, device: string) {
    var frames := Inbox(s, device);
    forall b :: 0 <= b < |frames| && frames[b].Baseline? ==>
      && (exists upto :: IsTailOf(s, frames[b], upto))
      && (IsCurrent(s, device, b) ==> SentSince(s, device, frames[b].number))
  }

  ghost predicate ProducerInv(s: System) {
    && s.begun <= |s.appended|
    && CurrentSeq(s.table, s.session) == s.begun
    && (!s.producer.Idle? ==> s.producer.number == s.begun > 0)
    && (forall i :: 0 <= i < |s.appended| ==> s.appended[i] != "")
  }

  ghost predicate Inv(s: System) {
    && ProducerInv(s)
    && (forall d :: InboxInv(s, d))
    && (forall d :: PhaseInv(s, d))
    && (forall d :: BaselineInv(s, d))
  }

  // ---- every step keeps it ----

  lemma OutputStable(s: System, t: System)
    requires s.appended <= t.appended
    ensures forall n: nat :: n <= |s.appended| ==> Output(s, n) == Output(t, n)
  {
    forall n: nat | n <= |s.appended|
      ensures Output(s, n) == Output(t, n)
    {
      assert s.appended[..n] == t.appended[..n];
    }
  }

  // No step takes anything back.
  lemma StepGrows(s: System, step: Step, d: string)
    requires Enabled(s, step)
    ensures var t := Next(s, step);
            && s.appended <= t.appended && s.begun <= t.begun && Inbox(s, d) <= Inbox(t, d)
            && forall b: nat :: b < |Inbox(s, d)| && IsCurrent(t, d, b) ==> IsCurrent(s, d, b)
  {
    hide Output, IsSuffix;
  }

  lemma StepKeepsProducer(s: System, step: Step)
    requires ProducerInv(s) && Enabled(s, step)
    ensures ProducerInv(Next(s, step))
  {
    hide Output, IsSuffix;
  }

  lemma CarriesStays(s: System, t: System, frame: Frame)
    requires Carries(s, frame) && s.appended <= t.appended && s.begun <= t.begun <= |t.appended|
    ensures Carries(t, frame)
  {
    OutputStable(s, t);
  }

  lemma StepKeepsInbox(s: System, step: Step, d: string)
    requires Inv(s) && Enabled(s, step)
    ensures InboxInv(Next(s, step), d)
  {
    hide PhaseInv, BaselineInv, IsSuffix, Output, Viewers, Carries;
    var t := Next(s, step);
    assert InboxInv(s, d);
    StepGrows(s, step, d);
    StepKeepsProducer(s, step);
    forall i | 0 <= i < |Inbox(s, d)|
      ensures Carries(t, Inbox(t, d)[i])
    {
      CarriesStays(s, t, Inbox(s, d)[i]);
      assert Inbox(t, d)[i] == Inbox(s, d)[i];
    }
    if |Inbox(s, d)| < |Inbox(t, d)| {
      SentCarries(s, step, d);
    }
    NumbersStayBelow(s, d);
  }

  lemma SentCarries(s: System, step: Step, d: string)
    requires ProducerInv(s) && (step == SendTo(d) || step == SendBaseline(d)) && Enabled(s, step)
    ensures var t := Next(s, step);
            |Inbox(t, d)| == |Inbox(s, d)| + 1 && Carries(t, Inbox(t, d)[|Inbox(s, d)|])
  {
    hide Concat;
    OutputStable(s, Next(s, step));
  }

  lemma NumbersStayBelow(s: System, d: string)
    requires InboxInv(s, d)
    ensures var frames := Inbox(s, d);
            forall i :: 0 <= i < |frames| && frames[i].Live? ==> 1 <= frames[i].number <= s.begun
  {
    assert forall i :: 0 <= i < |Inbox(s, d)| ==> Carries(s, Inbox(s, d)[i]);
  }

  lemma NumberStays(o: seq<Frame>, grown: seq<Frame>, n: int)
    requires HasNumber(o, n) && o <= grown
    ensures HasNumber(grown, n)
  {
    var i :| 0 <= i < |o| && o[i].Live? && o[i].number == n;
    assert grown[i] == o[i];
  }

  // A number on its way to a viewer stays on its way or arrives; a new number is on its way.
  lemma StepKeepsFlight(s: System, step: Step, d: string, n: int)
    requires ProducerInv(s) && Enabled(s, step) && IsViewer(s, d)
    requires InFlight(s, d, n) || n == s.begun + 1
    ensures var t := Next(s, step);
            n <= t.begun ==> HasNumber(Inbox(t, d), n) || InFlight(t, d, n)
  {
    hide Output, IsSuffix;
    var t := Next(s, step);
    if step == SendTo(d) && n == s.begun {
      assert Inbox(t, d)[|Inbox(s, d)|].number == n;
    }
  }

  lemma StepKeepsSent(s: System, step: Step, d: string, q: int)
    requires ProducerInv(s) && Enabled(s, step) && IsViewer(s, d) && SentSince(s, d, q)
    ensures SentSince(Next(s, step), d, q)
  {
    hide HasNumber, InFlight, Output, IsSuffix, IsViewer;
    var t := Next(s, step);
    StepGrows(s, step, d);
    assert t.begun <= s.begun + 1;
    forall n | q < n <= t.begun
      ensures HasNumber(Inbox(t, d), n) || InFlight(t, d, n)
    {
      if n <= s.begun && HasNumber(Inbox(s, d), n) {
        NumberStays(Inbox(s, d), Inbox(t, d), n);
      } else {
        StepKeepsFlight(s, step, d, n);
      }
    }
  }

  lemma StepKeepsPhase(s: System, step: Step, d: string)
    requires Inv(s) && Enabled(s, step)
    ensures PhaseInv(Next(s, step), d)
  {
    hide InboxInv, BaselineInv, HasNumber, Output, IsSuffix;
    var t := Next(s, step);
    var phase := PhaseOf(s, d);
    assert PhaseInv(s, d);
    OutputStable(s, t);
    SnapshotIsTail(s, step);
    if phase.Counted? || phase.Snapped? {
      StepKeepsSent(s, step, d, phase.number);
    }
  }

  lemma SnapshotIsTail(s: System, step: Step)
    requires Enabled(s, step)
    ensures step.Snapshot? ==> IsSuffix(step.data, Output(s, |s.appended|))
  {
    assert s.appended[..|s.appended|] == s.appended;
  }

  lemma TailStays(s: System, t: System, frame: Frame, upto: nat)
    requires IsTailOf(s, frame, upto) && s.appended <= t.appended && s.begun <= t.begun
    ensures IsTailOf(t, frame, upto)
  {
    OutputStable(s, t);
  }

  lemma StepKeepsBaseline(s: System, step: Step, d: string, b: nat)
    requires Inv(s) && Enabled(s, step)
    requires var frames := Inbox(Next(s, step), d); b < |frames| && frames[b].Baseline?
    ensures var t := Next(s, step);
            && (exists upto :: IsTailOf(t, Inbox(t, d)[b], upto))
            && (IsCurrent(t, d, b) ==> SentSince(t, d, Inbox(t, d)[b].number))
  {
    hide InboxInv, HasNumber, Output, IsSuffix, SentSince, IsTailOf, IsViewer;
    var t := Next(s, step);
    StepGrows(s, step, d);
    StepKeepsProducer(s, step);
    if b < |Inbox(s, d)| {
      assert Inbox(t, d)[b] == Inbox(s, d)[b] && BaselineInv(s, d);
      var upto :| IsTailOf(s, Inbox(s, d)[b], upto);
      TailStays(s, t, Inbox(s, d)[b], upto);
      if IsCurrent(t, d, b) {
        StepKeepsSent(s, step, d, Inbox(s, d)[b].number);
      }
    } else {
      assert step == SendBaseline(d) && PhaseInv(s, d);
      SnapshotSent(s, d);
      StepKeepsSent(s, step, d, PhaseOf(s, d).number);
    }
  }

  lemma SnapshotSent(s: System, d: string)
    requires ProducerInv(s) && PhaseInv(s, d) && Enabled(s, SendBaseline(d))
    ensures var t, snap := Next(s, SendBaseline(d)), PhaseOf(s, d);
            IsTailOf(t, Inbox(t, d)[|Inbox(s, d)|], snap.upto)
  {
    hide HasNumber, Concat, IsSuffix;
    OutputStable(s, Next(s, SendBaseline(d)));
  }

  lemma StepKeeps(s: System, step: Step)
    requires Inv(s) && Enabled(s, step)
    ensures Inv(Next(s, step))
  {
    hide InboxInv, PhaseInv, Output, IsSuffix, ProducerInv, IsTailOf, SentSince, IsCurrent;
    StepKeepsProducer(s, step);
    forall d ensures InboxInv(Next(s, step), d) {
      StepKeepsInbox(s, step, d);
    }
    forall d ensures PhaseInv(Next(s, step), d) {
      StepKeepsPhase(s, step, d);
    }
    forall d ensures BaselineInv(Next(s, step), d) {
      var frames := Inbox(Next(s, step), d);
      forall b | 0 <= b < |frames| && frames[b].Baseline?
        ensures exists upto :: IsTailOf(Next(s, step), frames[b], upto)
        ensures IsCurrent(Next(s, step), d, b) ==> SentSince(Next(s, step), d, frames[b].number)
      {
        StepKeepsBaseline(s, step, d, b);
      }
    }
  }

  lemma {:induction false} RunKeeps(s: System, steps: seq<Step>, end: System)
    requires Inv(s) && RunsTo(s, steps, end)
    ensures Inv(end)
    decreases |steps|
  {
    if steps != [] {
      StepKeeps(s, steps[0]);
      RunKeeps(Next(s, steps[0]), steps[1..], end);
    }
  }

  lemma EveryRunKeeps(session: string, steps: seq<Step>, s: System)
    requires RunsTo(Start(session), steps, s)
    ensures Inv(s)
  {
    RunKeeps(Start(session), steps, s);
  }

  // ---- what a subscriber can rely on ----

  lemma {:induction false} OutputGrows(s: System, m: nat, n: nat)
    requires m < n <= |s.appended| && (forall i :: 0 <= i < |s.appended| ==> s.appended[i] != "")
    ensures |Output(s, m)| < |Output(s, n)|
    decreases n - m
  {
    assert s.appended[..n][..n - 1] == s.appended[..n - 1];
    if m < n - 1 {
      OutputGrows(s, m, n - 1);
    }
  }

  /** The chunk has reached the device in exactly one live frame, numbered and placed as it should be. */
  ghost predicate ReachedOnce(s: System, device: string, n: nat)
    requires 1 <= n <= |s.appended|
  {
    var frames := Inbox(s, device);
    exists i :: 0 <= i < |frames| && frames[i] == Live(n, |Output(s, n)|, s.appended[n - 1])
      && forall j :: 0 <= j < |frames| && frames[j].Live? && j != i ==> frames[j].number != n
  }

  lemma NumberReachedOnce(s: System, device: string, n: nat)
    requires 1 <= n <= |s.appended| && InboxInv(s, device) && HasNumber(Inbox(s, device), n)
    ensures ReachedOnce(s, device, n)
  {
    hide Output, InFlight;
    var frames := Inbox(s, device);
    var i :| 0 <= i < |frames| && frames[i].Live? && frames[i].number == n;
    assert Carries(s, frames[i]);
  }

  /** Over every interleaving and for every baseline a device has received: it is a tail of the output up to some
      chunk, whatever its number covers is inside it, and while the device stays subscribed every chunk past it
      reaches the device live, once, under a larger number. */
  lemma NoOutputMissed(session: string, steps: seq<Step>, s: System, device: string, b: nat) returns (upto: nat)
    requires RunsTo(Start(session), steps, s)
    requires b < |Inbox(s, device)| && Inbox(s, device)[b].Baseline?
    ensures s.begun <= |s.appended| && IsTailOf(s, Inbox(s, device)[b], upto)
    ensures forall n: nat :: n <= Inbox(s, device)[b].number ==> |Output(s, n)| <= Inbox(s, device)[b].bufferEnd
    ensures IsCurrent(s, device, b) ==>
              forall n: nat :: upto < n <= s.begun && !InFlight(s, device, n) ==>
                && Inbox(s, device)[b].number < n && Inbox(s, device)[b].bufferEnd < |Output(s, n)|
                && ReachedOnce(s, device, n)
  {
    hide Output, HasNumber, InFlight, InboxInv, PhaseInv, ReachedOnce, IsSuffix, IsCurrent;
    EveryRunKeeps(session, steps, s);
    var frame := Inbox(s, device)[b];
    assert BaselineInv(s, device) && InboxInv(s, device);
    upto :| IsTailOf(s, frame, upto);
    forall n: nat | n <= frame.number
      ensures |Output(s, n)| <= |Output(s, upto)|
    {
      if n < upto { OutputGrows(s, n, upto); }
    }
    if IsCurrent(s, device, b) {
      forall n: nat | upto < n <= s.begun && !InFlight(s, device, n)
        ensures |Output(s, upto)| < |Output(s, n)| && ReachedOnce(s, device, n)
      {
        OutputGrows(s, upto, n);
        NumberReachedOnce(s, device, n);
      }
    }
  }

  /** What a client appends to its baseline: the live text that ends past the baseline's end. */
  function Fresh(frames: seq<Frame>, from: nat): string {
    if frames == [] then ""
    else
      var last := frames[|frames| - 1];
      Fresh(frames[..|frames| - 1], from) + if last.Live? && last.bufferEnd > from then last.text else ""
  }

  lemma OutputNext(s: System, n: nat)
    requires 0 < n <= |s.appended|
    ensures Output(s, n) == Output(s, n - 1) + s.appended[n - 1]
  {
    assert s.appended[..n][..n - 1] == s.appended[..n - 1];
  }

  lemma NumberNotLast(frames: seq<Frame>, n: int)
    requires frames != [] && HasNumber(frames, n)
    requires var last := frames[|frames| - 1]; last.Live? ==> last.number != n
    ensures HasNumber(frames[..|frames| - 1], n)
  {
    var i :| 0 <= i < |frames| && frames[i].Live? && frames[i].number == n;
    assert frames[..|frames| - 1][i] == frames[i];
  }

  lemma TextOf(s: System, frame: Frame)
    requires Carries(s, frame) && frame.Live?
    ensures 1 <= frame.number <= |s.appended| && frame.text == s.appended[frame.number - 1]
  {
  }

  lemma NumberIsLast(frames: seq<Frame>, m: int)
    requires frames != [] && HasNumber(frames, m) && Increasing(frames)
    requires frames[|frames| - 1].Live? && frames[|frames| - 1].number <= m
    ensures frames[|frames| - 1].number == m
  {
  }

  lemma AllButLast(frames: seq<Frame>)
    requires frames != [] && Increasing(frames)
    ensures var rest, last := frames[..|frames| - 1], frames[|frames| - 1];
            && Increasing(rest)
            && (last.Live? ==> forall i :: 0 <= i < |rest| && rest[i].Live? ==> rest[i].number < last.number)
  {
  }

  // The buffer end of a frame tells on which side of chunk u it lies.
  lemma EndTellsSide(s: System, frame: Frame, u: nat)
    requires ProducerInv(s) && u <= |s.appended| && Carries(s, frame) && frame.Live?
    ensures frame.bufferEnd > |Output(s, u)| <==> u < frame.number
  {
    hide Output;
    if u < frame.number {
      OutputGrows(s, u, frame.number);
    } else if frame.number < u {
      OutputGrows(s, frame.number, u);
    }
  }

  // The frames of a device hold chunks u+1..m, each once and in order.
  lemma {:induction false} FreshIsTheRest(s: System, frames: seq<Frame>, u: nat, m: nat)
    requires ProducerInv(s) && u <= |s.appended| && m <= |s.appended|
    requires forall i :: 0 <= i < |frames| ==> Carries(s, frames[i])
    requires forall i :: 0 <= i < |frames| && frames[i].Live? ==> frames[i].number <= m
    requires Increasing(frames)
    requires forall n :: u < n <= m ==> HasNumber(frames, n)
    ensures Output(s, u) + Fresh(frames, |Output(s, u)|) == Output(s, if u < m then m else u)
    decreases |frames|
  {
    hide Output, HasNumber, ProducerInv, Fresh, Carries, Increasing;
    FreshNext(frames, |Output(s, u)|);
    if frames == [] {
      assert u < m ==> HasNumber(frames, m);
      NoFrameNoNumber(m);
    } else {
      var last := frames[|frames| - 1];
      assert Carries(s, last);
      var taken := last.Live? && u < last.number;
      if taken {
        TextOf(s, last);
        assert HasNumber(frames, m);
        NumberIsLast(frames, m);
      }
      var rest, upto := frames[..|frames| - 1], if taken then m - 1 else m;
      if last.Live? {
        EndTellsSide(s, last, u);
      }
      forall n | u < n <= upto
        ensures HasNumber(rest, n)
      {
        assert HasNumber(frames, n);
        NumberNotLast(frames, n);
      }
      AllButLast(frames);
      FreshIsTheRest(s, rest, u, upto);
      if taken {
        OutputNext(s, m);
      }
    }
  }

  lemma FreshNext(frames: seq<Frame>, from: nat)
    ensures frames == [] ==> Fresh(frames, from) == ""
    ensures frames != [] ==>
              var last := frames[|frames| - 1];
              Fresh(frames, from) == Fresh(frames[..|frames| - 1], from) +
                                     if last.Live? && last.bufferEnd > from then last.text else ""
  {
  }

  lemma NoFrameNoNumber(n: int)
    ensures !HasNumber([], n)
  {
  }

  /** The last chunk whose frame has left for the device. */
  function SentTo(s: System, device: string): int {
    if InFlight(s, device, s.begun) then s.begun - 1 else s.begun
  }

  // Between a baseline and the last chunk sent, every chunk is in the inbox, in order.
  lemma InboxIsComplete(s: System, device: string, b: nat, upto: nat)
    requires ProducerInv(s) && InboxInv(s, device) && b < |Inbox(s, device)|
    requires IsTailOf(s, Inbox(s, device)[b], upto) && SentSince(s, device, Inbox(s, device)[b].number)
    ensures var frames := Inbox(s, device);
            && upto <= |s.appended| && 0 <= SentTo(s, device) <= |s.appended|
            && (forall i :: 0 <= i < |frames| ==> Carries(s, frames[i]))
            && (forall i :: 0 <= i < |frames| && frames[i].Live? ==> frames[i].number <= SentTo(s, device))
            && Increasing(frames)
            && (forall n :: upto < n <= SentTo(s, device) ==> HasNumber(frames, n))
  {
    hide Output, HasNumber, IsSuffix;
    var frames := Inbox(s, device);
    forall i | 0 <= i < |frames| && frames[i].Live?
      ensures frames[i].number <= SentTo(s, device)
    {
      assert Carries(s, frames[i]);
    }
  }

  lemma SuffixJoins(tail: string, before: string, added: string)
    requires IsSuffix(tail, before)
    ensures IsSuffix(tail + added, before + added)
  {
    assert (before + added)[|before| - |tail|..] == before[|before| - |tail|..] + added;
  }

  /** A client that appends the live frames ending past a baseline of its present subscription holds a tail of the
      whole output: all of it from the first character of that baseline to the last chunk sent. */
  lemma BaselineAndLiveJoin(session: string, steps: seq<Step>, s: System, device: string, b: nat) returns (upto: nat)
    requires RunsTo(Start(session), steps, s)
    requires b < |Inbox(s, device)| && Inbox(s, device)[b].Baseline? && IsCurrent(s, device, b)
    ensures var frame, sent := Inbox(s, device)[b], SentTo(s, device);
            && IsTailOf(s, frame, upto) && 0 <= sent <= |s.appended|
            && var seen := Output(s, if upto < sent then sent else upto);
               && Output(s, upto) + Fresh(Inbox(s, device), frame.bufferEnd) == seen
               && IsSuffix(frame.data + Fresh(Inbox(s, device), frame.bufferEnd), seen)
  {
    hide Output, Fresh, HasNumber, InFlight, InboxInv, PhaseInv, ProducerInv, IsSuffix, Carries, Increasing, SentTo,
      SentSince, IsCurrent;
    EveryRunKeeps(session, steps, s);
    assert BaselineInv(s, device) && InboxInv(s, device);
    var frame, frames := Inbox(s, device)[b], Inbox(s, device);
    upto :| IsTailOf(s, frame, upto);
    InboxIsComplete(s, device, b, upto);
    FreshIsTheRest(s, frames, upto, SentTo(s, device));
    SuffixJoins(frame.data, Output(s, upto), Fresh(frames, frame.bufferEnd));
  }
}
