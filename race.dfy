/**
 * `raceAll_`: races `self` against `effects`. The scheduler is left out:
 * a run of the race is the sequence of completion events the arbiters see,
 * in the order they run, each naming a participant by its position in the
 * participant list and carrying its exit.
 */
module Race {
  import opened DataTypes
  import opened Exits
  import opened Deferreds

  /** A position in the participant list: 0 is `self`, `i + 1` is `effects[i]`. */
  type FiberIndex = nat

  /** A participant fiber completed with `exit`; its arbiter runs. */
  datatype Event<E, A> = Event(fiber: FiberIndex, exit: Exit<E, A>)

  /**
   * `tail.prepend(head)`: the fibers of the race, `self` first and then the
   * snapshot of `effects` in its order.
   */
  function Participants<P>(self: P, effects: seq<P>): (fs: seq<P>)
    ensures |fs| == |effects| + 1
    ensures fs[0] == self && forall i :: 0 <= i < |effects| ==> fs[i + 1] == effects[i]
  {
    [self] + effects
  }

  /**
   * The fold of the winning arbiter: one interruption per fiber of
   * `0 .. count - 1`, in order, passing over `winner`.
   */
  function Losers(count: nat, winner: FiberIndex): seq<FiberIndex> {
    if count == 0 then []
    else Losers(count - 1, winner) + (if count - 1 == winner then [] else [count - 1])
  }

  /** The fold of the cleanup on interruption: every fiber, in order. */
  function AllFibers(count: nat): seq<FiberIndex> {
    if count == 0 then [] else AllFibers(count - 1) + [count - 1]
  }

  /** Strictly increasing, so no fiber occurs twice. */
  predicate Increasing(xs: seq<FiberIndex>) {
    forall j, k :: 0 <= j < k < |xs| ==> xs[j] < xs[k]
  }

  /**
   * The winner interrupts every other participant exactly once, in order,
   * and never itself.
   */
  lemma {:induction false} LosersAreEveryOtherFiber(count: nat, winner: FiberIndex)
    ensures forall i: FiberIndex :: i in Losers(count, winner) <==> i < count && i != winner
    ensures Increasing(Losers(count, winner))
    ensures |Losers(count, winner)| == if winner < count then count - 1 else count
  {
    if count > 0 {
      LosersAreEveryOtherFiber(count - 1, winner);
      var prev := Losers(count - 1, winner);
      var last: seq<FiberIndex> := if count - 1 == winner then [] else [count - 1];
      assert Losers(count, winner) == prev + last;
      forall i: FiberIndex ensures i in prev + last <==> i < count && i != winner {
        assert i in prev + last <==> i in prev || i in last;
      }
      forall j, k | 0 <= j < k < |prev + last| ensures (prev + last)[j] < (prev + last)[k] {
        if k >= |prev| {
          assert (prev + last)[j] == prev[j] && prev[j] in prev;
        }
      }
    }
  }

  /** The cleanup interrupts fiber `i` as its `i`-th step, the head first. */
  lemma {:induction false} AllFibersInOrder(count: nat)
    ensures |AllFibers(count)| == count
    ensures forall i :: 0 <= i < count ==> AllFibers(count)[i] == i
  {
    if count > 0 {
      AllFibersInOrder(count - 1);
    }
  }

  /** How many of the events are failures. */
  function Failures<E, A>(h: seq<Event<E, A>>): nat {
    if h == [] then 0 else (if h[0].exit.Failure? then 1 else 0) + Failures(h[1..])
  }

  /**
   * What the race cell holds once the arbiters have seen `h`, when
   * `remaining` failures can still be absorbed: the first event that
   * succeeded, with its fiber, or the failure that finds no failure left to
   * absorb; nothing when neither has happened.
   */
  function Decide<E, A>(remaining: nat, h: seq<Event<E, A>>): Option<Exit<E, (A, FiberIndex)>>
    decreases |h|
  {
    if h == [] then None
    else match h[0].exit
      case Success(a) => Some(Success((a, h[0].fiber)))
      case Failure(c) => if remaining == 0 then Some(Failure(c)) else Decide(remaining - 1, h[1..])
  }

  /** The interruptions the arbiters have issued after seeing `h`. */
  function ArbiterInterrupts<E, A>(n: nat, h: seq<Event<E, A>>): seq<FiberIndex> {
    match Decide(n, h)
    case Some(Success((_, w))) => Losers(n + 1, w)
    case _ => []
  }

  lemma {:induction false} FailuresAppend<E, A>(h: seq<Event<E, A>>, ev: Event<E, A>)
    ensures Failures(h + [ev]) == Failures(h) + (if ev.exit.Failure? then 1 else 0)
  {
    if h != [] {
      assert (h + [ev])[1..] == h[1..] + [ev];
      FailuresAppend(h[1..], ev);
    }
  }

  /** One more event: a decision stands; otherwise the new event may decide. */
  lemma {:induction false} DecideAppend<E, A>(r: nat, h: seq<Event<E, A>>, ev: Event<E, A>)
    ensures Decide(r, h).None? ==> Failures(h) <= r
    ensures Decide(r, h + [ev])
            == if Decide(r, h).Some? then Decide(r, h)
               else match ev.exit
                    case Success(a) => Some(Success((a, ev.fiber)))
                    case Failure(c) => if Failures(h) == r then Some(Failure(c)) else None
  {
    if h != [] {
      assert (h + [ev])[1..] == h[1..] + [ev];
      if h[0].exit.Failure? && r > 0 {
        DecideAppend(r - 1, h[1..], ev);
      }
    }
  }

  /** Once the race cell is set, nothing that happens later changes it. */
  lemma {:induction false} DecisionIsFinal<E, A>(r: nat, h: seq<Event<E, A>>, later: seq<Event<E, A>>)
    requires Decide(r, h).Some?
    ensures Decide(r, h + later) == Decide(r, h)
  {
    assert h != [];
    assert (h + later)[0] == h[0];
    if h[0].exit.Failure? && r > 0 {
      assert (h + later)[1..] == h[1..] + later;
      DecisionIsFinal(r - 1, h[1..], later);
    }
  }

  /**
   * Only a success that comes first wins: a winning `(a, w)` is the exit of
   * an event of fiber `w` before which every event failed, and at most `r`
   * of them.
   */
  lemma {:induction false} WinnerIsFirstSuccess<E, A>(r: nat, h: seq<Event<E, A>>, a: A, w: FiberIndex)
    requires Decide(r, h) == Some(Success((a, w)))
    ensures exists k :: 0 <= k < |h| && k <= r && h[k] == Event(w, Success(a))
                        && forall j :: 0 <= j < k ==> h[j].exit.Failure?
  {
    if h[0].exit.Success? {
      assert h[0] == Event(w, Success(a));
    } else {
      WinnerIsFirstSuccess(r - 1, h[1..], a, w);
      var k :| 0 <= k < |h[1..]| && k <= r - 1 && h[1..][k] == Event(w, Success(a))
               && forall j :: 0 <= j < k ==> h[1..][j].exit.Failure?;
      assert h[k + 1] == Event(w, Success(a));
      assert forall j :: 0 <= j < k + 1 ==> h[j].exit.Failure? by {
        forall j | 0 <= j < k + 1 ensures h[j].exit.Failure? {
          if j > 0 { assert h[j] == h[1..][j - 1]; }
        }
      }
    }
  }

  /** A success preceded by at most `r` failures decides the race. */
  lemma {:induction false} SuccessAfterFewFailuresWins<E, A>(r: nat, h: seq<Event<E, A>>, k: nat)
    requires k < |h| && k <= r && h[k].exit.Success?
    requires forall j :: 0 <= j < k ==> h[j].exit.Failure?
    ensures Decide(r, h) == Some(Success((h[k].exit.value, h[k].fiber)))
  {
    if k > 0 {
      assert h[0].exit.Failure?;
      SuccessAfterFewFailuresWins(r - 1, h[1..], k - 1);
    }
  }

  /**
   * The race fails only on the failure that finds nothing left to absorb:
   * the first `r + 1` events all failed and the stored cause is that of
   * the last of them.
   */
  lemma {:induction false} FailureIsTheLastOfTheFirstFailures<E, A>(r: nat, h: seq<Event<E, A>>, c: Cause<E>)
    requires Decide(r, h) == Some(Failure(c))
    ensures r < |h|
    ensures forall j :: 0 <= j <= r ==> h[j].exit.Failure?
    ensures c == h[r].exit.cause
  {
    if r > 0 {
      FailureIsTheLastOfTheFirstFailures(r - 1, h[1..], c);
      forall j | 0 <= j <= r ensures h[j].exit.Failure? {
        if j > 0 { assert h[j] == h[1..][j - 1]; }
      }
    }
  }

  /** When the first `r + 1` events fail the race fails with the cause of the last of them. */
  lemma {:induction false} FirstFailuresDecideFailure<E, A>(r: nat, h: seq<Event<E, A>>)
    requires r < |h|
    requires forall j :: 0 <= j <= r ==> h[j].exit.Failure?
    ensures Decide(r, h) == Some(Failure(h[r].exit.cause))
  {
    assert h[0].exit.Failure?;
    if r > 0 {
      FirstFailuresDecideFailure(r - 1, h[1..]);
    }
  }

  /** Each participant completes once, so no fiber occurs in two events. */
  predicate DistinctFibers<E, A>(h: seq<Event<E, A>>) {
    forall j, k :: 0 <= j < k < |h| ==> h[j].fiber != h[k].fiber
  }

  /** Every event comes from one of the `count` participants. */
  predicate FromParticipants<E, A>(count: nat, h: seq<Event<E, A>>) {
    forall j :: 0 <= j < |h| ==> h[j].fiber < count
  }

  /** The fibers that occur in the events. */
  function FibersOf<E, A>(h: seq<Event<E, A>>): set<FiberIndex> {
    set j | 0 <= j < |h| :: h[j].fiber
  }

  /** The fibers `0 .. count - 1`. */
  function Range(count: nat): set<FiberIndex> {
    if count == 0 then {} else Range(count - 1) + {count - 1}
  }

  lemma {:induction false} RangeSize(count: nat)
    ensures |Range(count)| == count
    ensures forall i: FiberIndex :: i in Range(count) <==> i < count
  {
    if count > 0 {
      RangeSize(count - 1);
    }
  }

  lemma {:induction false} DistinctFibersSize<E, A>(h: seq<Event<E, A>>)
    requires DistinctFibers(h)
    ensures |FibersOf(h)| == |h|
  {
    if h != [] {
      var t := h[..|h| - 1];
      DistinctFibersSize(t);
      assert FibersOf(h) == FibersOf(t) + {h[|h| - 1].fiber};
      assert h[|h| - 1].fiber !in FibersOf(t);
    }
  }

  lemma {:induction false} SubsetSize(a: set<FiberIndex>, b: set<FiberIndex>)
    requires a <= b
    ensures |a| <= |b|
    ensures |a| == |b| ==> a == b
    decreases |a|
  {
    if a != {} {
      var x :| x in a;
      SubsetSize(a - {x}, b - {x});
      if |a| == |b| {
        assert a == (a - {x}) + {x} && b == (b - {x}) + {x};
      }
    } else if |b| == 0 {
      assert b == {};
    }
  }

  /**
   * With each participant completing once, the first success wins the race
   * whatever failures came before it.
   */
  lemma FirstSuccessWins<E, A>(n: nat, h: seq<Event<E, A>>, k: nat)
    requires DistinctFibers(h) && FromParticipants(n + 1, h)
    requires k < |h| && h[k].exit.Success?
    requires forall j :: 0 <= j < k ==> h[j].exit.Failure?
    ensures Decide(n, h) == Some(Success((h[k].exit.value, h[k].fiber)))
  {
    var before := h[..k];
    DistinctFibersSize(before);
    RangeSize(n + 1);
    forall f | f in FibersOf(before) ensures f in Range(n + 1) - {h[k].fiber} {
      var j :| 0 <= j < |before| && before[j].fiber == f;
      assert before[j] == h[j];
    }
    SubsetSize(FibersOf(before), Range(n + 1) - {h[k].fiber});
    SuccessAfterFewFailuresWins(n, h, k);
  }

  /**
   * The race fails only when every participant has failed: the failure is
   * that of the last event, which is the `(n + 1)`-th, and each of the
   * `n + 1` participants has a failed event.
   */
  lemma RaceFailsOnlyWhenAllFailed<E, A>(n: nat, h: seq<Event<E, A>>, c: Cause<E>)
    requires DistinctFibers(h) && FromParticipants(n + 1, h)
    requires Decide(n, h) == Some(Failure(c))
    ensures |h| == n + 1
    ensures forall j :: 0 <= j < |h| ==> h[j].exit.Failure?
    ensures c == h[n].exit.cause
    ensures FibersOf(h) == Range(n + 1)
  {
    FailureIsTheLastOfTheFirstFailures(n, h, c);
    DistinctFibersSize(h);
    RangeSize(n + 1);
    assert FibersOf(h) <= Range(n + 1) by {
      forall f | f in FibersOf(h) ensures f in Range(n + 1) {
        var j :| 0 <= j < |h| && h[j].fiber == f;
      }
    }
    SubsetSize(FibersOf(h), Range(n + 1));
    assert |h| == n + 1;
  }

  /** If all `n + 1` participants fail, the race fails with the last cause. */
  lemma AllFailedRaceFails<E, A>(n: nat, h: seq<Event<E, A>>)
    requires |h| == n + 1
    requires forall j :: 0 <= j < |h| ==> h[j].exit.Failure?
    ensures Decide(n, h) == Some(Failure(h[n].exit.cause))
  {
    FirstFailuresDecideFailure(n, h);
  }

  /**
   * Interruptions by arbiters happen only once some success won: then every
   * other participant is interrupted exactly once, in order, and the winner
   * never; otherwise no arbiter interrupted anything.
   */
  lemma ArbitersInterruptOnlyLosers<E, A>(n: nat, h: seq<Event<E, A>>)
    ensures Decide(n, h).None? || Decide(n, h).value.Failure? ==> ArbiterInterrupts(n, h) == []
    ensures Decide(n, h).Some? && Decide(n, h).value.Success? ==>
              var w := Decide(n, h).value.value.1;
              && Increasing(ArbiterInterrupts(n, h))
              && w !in ArbiterInterrupts(n, h)
              && forall i :: 0 <= i <= n && i != w ==> i in ArbiterInterrupts(n, h)
  {
    match Decide(n, h)
    case Some(Success((_, w))) => LosersAreEveryOtherFiber(n + 1, w);
    case _ =>
  }

  /**
   * The shared state of one race: the counter `fails`, the cell `done`, and
   * the interruptions arbiters have issued. `history` is the sequence of
   * events the arbiters have processed so far.
   */
  class RaceState<E, A> {
    /** `ios.size`: the participants other than `self`. */
    const n: nat
    const done: Deferred<E, (A, FiberIndex)>
    var fails: int
    var interrupts: seq<FiberIndex>
    ghost var history: seq<Event<E, A>>

    ghost predicate Valid()
      reads this, done
    {
      && fails == n - Failures(history)
      && done.result == Decide(n, history)
      && interrupts == ArbiterInterrupts(n, history)
    }

    /** `Deferred.make` and `Ref.make(ios.size)`. */
    constructor (n: nat)
      ensures Valid() && fresh(done)
      ensures this.n == n && history == []
      ensures fails == n && done.result == None && interrupts == []
    {
      this.n := n;
      done := new Deferred();
      fails := n;
      interrupts := [];
      history := [];
    }

    /**
     * `arbiter` for the fiber of `ev`, run on its exit. A failure reads the
     * counter `c`, stores `c - 1`, and fails the cell with its cause when
     * `c` was 0. A success tries to complete the cell with the value and
     * the fiber; only if that call completed it does it interrupt the
     * other fibers.
     */
    method Arbiter(ev: Event<E, A>)
      requires Valid()
      modifies this, done
      ensures Valid() && history == old(history) + [ev]
      ensures fails == old(fails) - (if ev.exit.Failure? then 1 else 0)
      ensures ev.exit.Failure? ==>
                && interrupts == old(interrupts)
                && done.result == if old(fails) == 0 && old(done.result).None? then Some(Failure(ev.exit.cause))
                                  else old(done.result)
      ensures ev.exit.Success? && old(done.result).None? ==>
                && done.result == Some(Success((ev.exit.value, ev.fiber)))
                && interrupts == old(interrupts) + Losers(n + 1, ev.fiber)
      ensures ev.exit.Success? && old(done.result).Some? ==>
                done.result == old(done.result) && interrupts == old(interrupts)
    {
      DecideAppend(n, history, ev);
      FailuresAppend(history, ev);
      match ev.exit {
        case Failure(cause) =>
          var c := fails;
          fails := c - 1;
          if c == 0 {
            var _ := done.FailCause(cause);
          }
        case Success(a) =>
          var won := done.Succeed((a, ev.fiber));
          if won {
            interrupts := interrupts + Losers(n + 1, ev.fiber);
          }
      }
      history := history + [ev];
    }
  }

  /** What the caller of the race sees. */
  datatype Outcome<P, E, A> =
    | Waiting
    | Returned(exit: Exit<E, A>, winner: Option<P>)

  /**
   * The await on the cell: the winning value, after taking over the
   * winner's fiber refs; the stored failure; or, while the cell is empty,
   * an interruption of the caller if one comes.
   */
  function AwaitOutcome<P, E, A>(fs: seq<P>, decided: Option<Exit<E, (A, FiberIndex)>>,
                                 interrupted: bool): Outcome<P, E, A> {
    match decided
    case Some(Success((a, w))) => Returned(Success(a), if w < |fs| then Some(fs[w]) else None)
    case Some(Failure(c)) => Returned(Failure(c), None)
    case None => if interrupted then Returned(Failure(Interrupt), None) else Waiting
  }

  /**
   * The `onInterrupt` cleanup: when the await ends interrupted, every
   * participant fiber is interrupted, the head first.
   */
  function CleanupInterrupts<P, E, A>(count: nat, outcome: Outcome<P, E, A>): seq<FiberIndex> {
    if outcome.Returned? && outcome.exit.IsInterrupted() then AllFibers(count) else []
  }

  /**
   * `raceAll_` on one run: forks the participants and attaches an arbiter to
   * each (all before any event, as the uninterruptible mask ensures), lets
   * the arbiters process `events`, then awaits the cell; `interrupted`
   * says whether the caller is interrupted while the cell is still empty.
   * Returns what the caller sees and every interruption issued, in order.
   */
  method RaceAll<P, E, A>(self: P, effects: seq<P>, events: seq<Event<E, A>>, interrupted: bool)
    returns (outcome: Outcome<P, E, A>, interrupts: seq<FiberIndex>)
    requires FromParticipants(|effects| + 1, events)
    ensures outcome == AwaitOutcome(Participants(self, effects), Decide(|effects|, events), interrupted)
    ensures interrupts == ArbiterInterrupts(|effects|, events) + CleanupInterrupts(|effects| + 1, outcome)
  {
    var fs := Participants(self, effects);
    var race := new RaceState<E, A>(|effects|);
    var i := 0;
    while i < |events|
      invariant 0 <= i <= |events|
      invariant fresh(race) && fresh(race.done)
      invariant race.Valid() && race.n == |effects| && race.history == events[..i]
    {
      race.Arbiter(events[i]);
      i := i + 1;
    }
    assert events[..|events|] == events;
    match race.done.result {
      case Some(Success((a, w))) =>
        WinnerIsFirstSuccess(|effects|, events, a, w);
        outcome := Returned(Success(a), Some(fs[w]));
      case Some(Failure(c)) =>
        outcome := Returned(Failure(c), None);
      case None =>
        outcome := if interrupted then Returned(Failure(Interrupt), None) else Waiting;
    }
    interrupts := race.interrupts;
    if outcome.Returned? && outcome.exit.IsInterrupted() {
      interrupts := interrupts + AllFibers(|effects| + 1);
    }
  }

  /**
   * When the caller is interrupted before the race is decided, the await
   * ends interrupted and the cleanup interrupts every participant once, the
   * head first, after any interruption an arbiter issued.
   */
  lemma CancelledRaceInterruptsEveryone<P, E, A>(fs: seq<P>, n: nat, h: seq<Event<E, A>>)
    requires Decide(n, h).None?
    ensures AwaitOutcome(fs, Decide(n, h), true) == Returned(Failure(Interrupt), None)
    ensures ArbiterInterrupts(n, h) == []
    ensures CleanupInterrupts(n + 1, AwaitOutcome(fs, Decide(n, h), true)) == AllFibers(n + 1)
  {
  }

  /**
   * A race decided before the caller is interrupted is not cancelled: the
   * await returns the decision, whatever `interrupted` says.
   */
  lemma DecidedRaceIgnoresCancellation<P, E, A>(fs: seq<P>, n: nat, h: seq<Event<E, A>>)
    requires Decide(n, h).Some?
    ensures AwaitOutcome(fs, Decide(n, h), true) == AwaitOutcome(fs, Decide(n, h), false)
    ensures AwaitOutcome(fs, Decide(n, h), true).Returned?
  {
  }

  /**
   * A computation that succeeds with 42 after a suspension raced against
   * two that fail at once with "e1" and "e2": the race succeeds with 42,
   * and the two failed fibers are interrupted by the winner.
   */
  method SlowSuccessBeatsQuickFailures() returns (outcome: Outcome<string, string, int>, interrupts: seq<FiberIndex>)
    ensures outcome == Returned(Success(42), Some("slow 42"))
    ensures interrupts == [1, 2]
  {
    var events := [Event(1, Failure(Fail("e1"))), Event(2, Failure(Fail("e2"))), Event(0, Success(42))];
    outcome, interrupts := RaceAll("slow 42", ["fail e1", "fail e2"], events, false);
    assert Losers(3, 0) == [1, 2];
  }

  /**
   * Three computations failing with "a", "b" and "c", in that order: the
   * race fails with "c", the last to finish, and interrupts no one.
   */
  method AllFailReportsTheLast() returns (outcome: Outcome<string, string, int>, interrupts: seq<FiberIndex>)
    ensures outcome == Returned(Failure(Fail("c")), None)
    ensures interrupts == []
  {
    var events: seq<Event<string, int>> := [Event(0, Failure(Fail("a"))), Event(1, Failure(Fail("b"))), Event(2, Failure(Fail("c")))];
    outcome, interrupts := RaceAll("fail a", ["fail b", "fail c"], events, false);
  }
}
