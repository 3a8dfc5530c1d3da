/** The debounced file watcher: a receive loop with a quiet period, a flush deadline and a cap. */
module Debounce {
  import opened Sets

  const DEBOUNCE_MS: nat := 900
  const MAX_ACCUMULATE_MS: nat := 3_000
  const MAX_CHANGED_PATHS: nat := 4_096

  /** A batch of changed paths and the time it is sent. */
  datatype Batch = Batch(at: nat, paths: seq<string>)

  /** What is flushed: the batches received, the time of the first and the last of them, and of the flush. */
  datatype Flush = Flush(from: nat, to: nat, first: nat, last: nat, at: nat, paths: set<string>)

  function PathSet(paths: seq<string>): set<string> {
    set p | p in paths
  }

  /** Everything in the batches `from` to `to`. */
  function Received(batches: seq<Batch>, from: nat, to: nat): set<string>
    requires from <= to <= |batches|
  {
    set i, p | from <= i < to && p in batches[i].paths :: p
  }

  /** Adds values until the set is full; nothing is left out below the cap. */
  method PushUniqueStrings(target: set<string>, values: seq<string>) returns (added: set<string>)
    requires |target| <= MAX_CHANGED_PATHS
    ensures target <= added <= target + PathSet(values) && |added| <= MAX_CHANGED_PATHS
    ensures |added| < MAX_CHANGED_PATHS || |target + PathSet(values)| <= MAX_CHANGED_PATHS ==>
              added == target + PathSet(values)
  {
    added := target;
    var i := 0;
    while i < |values|
      invariant 0 <= i <= |values|
      invariant target <= added && |added| <= MAX_CHANGED_PATHS
      invariant added == target + PathSet(values[..i])
    {
      if |added| >= MAX_CHANGED_PATHS {
        assert PathSet(values[..i]) <= PathSet(values);
        if |target + PathSet(values)| <= MAX_CHANGED_PATHS {
          SubsetOfSameSize(added, target + PathSet(values));
        }
        return;
      }
      assert values[..i + 1] == values[..i] + [values[i]];
      assert PathSet(values[..i + 1]) == PathSet(values[..i]) + {values[i]};
      added := added + {values[i]};
      i := i + 1;
    }
    assert values[..i] == values;
  }

  lemma SubsetOfSameSize(a: set<string>, b: set<string>)
    requires a <= b && |b| <= |a|
    ensures a == b
  {
    assert |b - a| == |b| - |a|;
  }

  /** The paths of a set that took in the batches `from` to `to`: all of them below the cap. */
  ghost predicate Collects(batches: seq<Batch>, from: nat, to: nat, paths: set<string>)
    requires from <= to <= |batches|
  {
    && paths <= Received(batches, from, to) && |paths| <= MAX_CHANGED_PATHS
    && (|paths| < MAX_CHANGED_PATHS || |Received(batches, from, to)| <= MAX_CHANGED_PATHS ==>
          paths == Received(batches, from, to))
  }

  /** When batch `j` is received, the loop having received batch `from` at `first`. */
  function Heard(batches: seq<Batch>, first: nat, from: nat, j: nat): nat
    requires from <= j < |batches|
  {
    if j == from then first else Later(Heard(batches, first, from, j - 1), batches[j].at)
  }

  /** A flush comes 900 ms after its last batch, or at the deadline when that is earlier. No pause between two of its
      batches was longer than that, and no later batch was there to be received. */
  ghost predicate Proper(batches: seq<Batch>, f: Flush) {
    && f.from < f.to <= |batches| && Collects(batches, f.from, f.to, f.paths)
    && f.first <= f.last == Heard(batches, f.first, f.from, f.to - 1) <= f.first + MAX_ACCUMULATE_MS
    && Unpaused(batches, f.first, f.from, f.to)
    && f.at == (if f.last + DEBOUNCE_MS < f.first + MAX_ACCUMULATE_MS then f.last + DEBOUNCE_MS
                else f.first + MAX_ACCUMULATE_MS)
    && (f.last < f.at ==> f.to == |batches| || f.at < batches[f.to].at)
  }

  /** Each batch after the first came before the pause behind the one before was over. */
  ghost predicate Unpaused(batches: seq<Batch>, first: nat, from: nat, to: nat)
    requires from < to <= |batches|
  {
    forall j :: from < j < to ==> batches[j].at <= Heard(batches, first, from, j - 1) + DEBOUNCE_MS
  }

  /** In milliseconds and paths. */
  lemma ProperIs(batches: seq<Batch>, f: Flush)
    requires Proper(batches, f)
    ensures f.at <= f.first + 3_000 && f.at <= f.last + 900 && |f.paths| <= 4_096
    ensures f.at == f.first + 3_000 || f.at == f.last + 900
    ensures f.to < |batches| && f.last < f.at ==> f.at < batches[f.to].at
    ensures forall j :: f.from < j < f.to ==> batches[j].at <= Heard(batches, f.first, f.from, j - 1) + 900
  {
    hide Heard;
  }

  function Later(a: nat, b: nat): nat {
    if a < b then b else a
  }

  /** The inner loop: receive until quiet, deadline or the end of all senders. */
  method Accumulate(batches: seq<Batch>, closes: bool, closed: nat, from: nat, first: nat)
    returns (f: Flush, disconnected: bool)
    requires from < |batches| && batches[from].at <= first
    ensures f.from == from < f.to <= |batches| && f.first == first
    ensures !disconnected ==> Proper(batches, f)
    ensures !disconnected && closes && f.to == |batches| ==> f.at < closed || f.last == f.at
    ensures disconnected ==> closes && f.to == |batches| && closed <= f.last + DEBOUNCE_MS
                             && closed <= first + MAX_ACCUMULATE_MS
  {
    hide Collects, PathSet, Received, Heard, Unpaused;
    HeardAndUnpaused(batches, first, from);
    var changed := PushUniqueStrings({}, batches[from].paths);
    CollectsNothing(batches, from);
    CollectsMore(batches, from, from, {}, changed);
    var next, now, last := from + 1, first, first;
    var deadline := first + MAX_ACCUMULATE_MS;
    while now < deadline
      invariant from < next <= |batches| && first <= last == now <= deadline
      invariant last == Heard(batches, first, from, next - 1) && Unpaused(batches, first, from, next)
      invariant Collects(batches, from, next, changed)
      invariant |changed| <= MAX_CHANGED_PATHS
      decreases |batches| - next
    {
      var quiet := if DEBOUNCE_MS < deadline - now then DEBOUNCE_MS else deadline - now;
      if next < |batches| && batches[next].at <= now + quiet {
        now := Later(now, batches[next].at);
        last := now;
        ghost var before := changed;
        changed := PushUniqueStrings(changed, batches[next].paths);
        CollectsMore(batches, from, next, before, changed);
        HeardNext(batches, first, from, next);
        UnpausedNext(batches, first, from, next);
        next := next + 1;
      } else if next == |batches| && closes && closed <= now + quiet {
        return Flush(from, next, first, last, Later(now, closed), changed), true;
      } else {
        return Flush(from, next, first, last, now + quiet, changed), false;
      }
    }
    return Flush(from, next, first, last, now, changed), false;
  }

  lemma HeardAndUnpaused(batches: seq<Batch>, first: nat, from: nat)
    requires from < |batches|
    ensures Heard(batches, first, from, from) == first && Unpaused(batches, first, from, from + 1)
  {
  }

  lemma HeardNext(batches: seq<Batch>, first: nat, from: nat, next: nat)
    requires from < next < |batches|
    ensures Heard(batches, first, from, next) == Later(Heard(batches, first, from, next - 1), batches[next].at)
  {
  }

  lemma UnpausedNext(batches: seq<Batch>, first: nat, from: nat, next: nat)
    requires from < next < |batches| && Unpaused(batches, first, from, next)
    ensures batches[next].at <= Heard(batches, first, from, next - 1) + DEBOUNCE_MS ==>
              Unpaused(batches, first, from, next + 1)
  {
    hide Heard;
  }

  lemma CollectsNothing(batches: seq<Batch>, from: nat)
    requires from <= |batches|
    ensures Collects(batches, from, from, {})
  {
    assert Received(batches, from, from) == {};
  }

  lemma CollectsMore(batches: seq<Batch>, from: nat, next: nat, before: set<string>, after: set<string>)
    requires from <= next < |batches| && Collects(batches, from, next, before)
    requires before <= after <= before + PathSet(batches[next].paths) && |after| <= MAX_CHANGED_PATHS
    requires |after| < MAX_CHANGED_PATHS || |before + PathSet(batches[next].paths)| <= MAX_CHANGED_PATHS ==>
               after == before + PathSet(batches[next].paths)
    ensures Collects(batches, from, next + 1, after)
  {
    ReceivedGrows(batches, from, next);
    var all, known := Received(batches, from, next + 1), Received(batches, from, next);
    var more := PathSet(batches[next].paths);
    SubsetIsSmaller(before, after);
    if |all| <= MAX_CHANGED_PATHS {
      SubsetIsSmaller(known, all);
      SubsetIsSmaller(before + more, all);
    }
  }

  /** Flush `i` starts with the batch after the one before, when that batch is received. */
  ghost predicate Follows(batches: seq<Batch>, flushes: seq<Flush>, i: nat)
    requires i < |flushes|
  {
    && flushes[i].from == EndOf(flushes, i) < |batches|
    && flushes[i].first == Later(TimeOf(flushes, i), batches[flushes[i].from].at)
  }

  /** Where the first `n` flushes have got to, and when. */
  function EndOf(flushes: seq<Flush>, n: nat): nat
    requires n <= |flushes|
  {
    if n == 0 then 0 else flushes[n - 1].to
  }

  function TimeOf(flushes: seq<Flush>, n: nat): nat
    requires n <= |flushes|
  {
    if n == 0 then 0 else flushes[n - 1].at
  }

  /** The flushes follow each other through the batches without a gap. */
  ghost predicate Consecutive(batches: seq<Batch>, flushes: seq<Flush>, to: nat) {
    && (forall i :: 0 <= i < |flushes| ==> Follows(batches, flushes, i))
    && to == EndOf(flushes, |flushes|)
  }

  lemma OneMore(batches: seq<Batch>, flushes: seq<Flush>, f: Flush)
    requires Consecutive(batches, flushes, f.from) && f.from < |batches|
    requires f.first == Later(TimeOf(flushes, |flushes|), batches[f.from].at)
    ensures Consecutive(batches, flushes + [f], f.to) && TimeOf(flushes + [f], |flushes| + 1) == f.at
  {
    var longer := flushes + [f];
    forall i | 0 <= i < |longer|
      ensures Follows(batches, longer, i)
    {
      if i < |flushes| {
        assert Follows(batches, flushes, i);
      }
    }
  }

  /** The loop on the batches it is sent; the senders may go away at `closed`. What is pending then is lost. */
  method RunGitWatchDebounce(batches: seq<Batch>, closes: bool, closed: nat)
    returns (flushes: seq<Flush>, pending: seq<Flush>)
    ensures forall i :: 0 <= i < |flushes| ==> Proper(batches, flushes[i])
    ensures |pending| <= 1 && Consecutive(batches, flushes + pending, |batches|)
    ensures pending != [] ==> closes && closed <= pending[0].last + DEBOUNCE_MS
                              && closed <= pending[0].first + MAX_ACCUMULATE_MS
    ensures pending == [] && closes && flushes != [] ==>
              var f := flushes[|flushes| - 1]; f.at < closed || f.last == f.at
  {
    hide Proper, Follows;
    flushes, pending := [], [];
    var next, now := 0, 0;
    while next < |batches|
      invariant 0 <= next <= |batches| && Consecutive(batches, flushes, next)
      invariant forall i :: 0 <= i < |flushes| ==> Proper(batches, flushes[i])
      invariant now == TimeOf(flushes, |flushes|)
      invariant next == |batches| && closes && flushes != [] ==>
                  var f := flushes[|flushes| - 1]; f.at < closed || f.last == f.at
    {
      now := Later(now, batches[next].at);
      var f, disconnected := Accumulate(batches, closes, closed, next, now);
      OneMore(batches, flushes, f);
      if disconnected {
        return flushes, [f];
      }
      flushes := flushes + [f];
      next, now := f.to, f.at;
    }
    assert flushes + [] == flushes;
  }

  // ---- nothing lost ----

  function AllReceived(batches: seq<Batch>): set<string> {
    Received(batches, 0, |batches|)
  }

  function AllFlushed(flushes: seq<Flush>): set<string> {
    set i, p | 0 <= i < |flushes| && p in flushes[i].paths :: p
  }

  lemma ConsecutiveCovers(batches: seq<Batch>, flushes: seq<Flush>, n: nat, b: nat) returns (i: nat)
    requires n <= |flushes| && (forall i :: 0 <= i < |flushes| ==> Follows(batches, flushes, i))
    requires b < EndOf(flushes, n)
    ensures i < |flushes| && flushes[i].from <= b < flushes[i].to
    decreases n
  {
    assert Follows(batches, flushes, n - 1);
    if flushes[n - 1].from <= b {
      i := n - 1;
    } else {
      i := ConsecutiveCovers(batches, flushes, n - 1, b);
    }
  }

  /** A flush holds exactly the paths of its batches if and only if these are no more than the cap; otherwise it
      holds as many of them as the cap. */
  lemma FlushIsExactIff(batches: seq<Batch>, f: Flush)
    requires Proper(batches, f)
    ensures f.paths <= Received(batches, f.from, f.to)
    ensures f.paths == Received(batches, f.from, f.to) <==> |Received(batches, f.from, f.to)| <= MAX_CHANGED_PATHS
    ensures |Received(batches, f.from, f.to)| > MAX_CHANGED_PATHS ==> |f.paths| == MAX_CHANGED_PATHS
  {
  }

  /** A flush's batches hold no more paths than the cap. */
  ghost predicate WithinCap(batches: seq<Batch>, f: Flush) {
    Proper(batches, f) && |Received(batches, f.from, f.to)| <= MAX_CHANGED_PATHS
  }

  /** When no flush has batches with more paths than the cap and the senders stay, the flushed paths are the
      received paths. */
  lemma NothingLost(batches: seq<Batch>, flushes: seq<Flush>)
    requires Consecutive(batches, flushes, |batches|)
    requires forall i :: 0 <= i < |flushes| ==> WithinCap(batches, flushes[i])
    ensures AllFlushed(flushes) == AllReceived(batches)
  {
    forall p | p in AllReceived(batches)
      ensures p in AllFlushed(flushes)
    {
      var b :| 0 <= b < |batches| && p in batches[b].paths;
      var i := ConsecutiveCovers(batches, flushes, |flushes|, b);
      assert WithinCap(batches, flushes[i]);
      assert p in flushes[i].paths;
    }
    forall p | p in AllFlushed(flushes)
      ensures p in AllReceived(batches)
    {
      var i :| 0 <= i < |flushes| && p in flushes[i].paths;
      assert WithinCap(batches, flushes[i]);
      assert p in Received(batches, flushes[i].from, flushes[i].to);
    }
  }

  lemma ReceivedGrows(batches: seq<Batch>, from: nat, to: nat)
    requires from <= to < |batches|
    ensures Received(batches, from, to + 1) == Received(batches, from, to) + PathSet(batches[to].paths)
  {
  }
}
