/**
 * A deterministic semantics for effects, enough to state what the
 * synchronized reference does with its permits. An effect is a function
 * from a state (the value of the guarded cell and the permit count of every
 * semaphore) to an exit and a new state.
 *
 * Semaphore acquisition and release are single atomic steps, standing for
 * one transactional commit over all the semaphores of a reference.
 */
module Effects {
  import opened Exits
  import opened DataTypes

  /** A semaphore's identity. */
  type Semaphore = nat

  /** Free permits per semaphore. */
  type Permits = map<Semaphore, nat>

  datatype State<V> = State(cell: V, permits: Permits)

  /** The exit of an effect and the state it leaves behind. */
  datatype Step<V, E, A> = Step(exit: Exit<E, A>, state: State<V>)

  type Effect<!V, E, A> = State<V> -> Step<V, E, A>

  /** `Effect.succeedNow`. */
  function SucceedNow<V, E, A>(a: A): Effect<V, E, A> {
    (s: State<V>) => Step(Success(a), s)
  }

  /** `Effect.failNow`. */
  function FailNow<V, E, A>(e: E): Effect<V, E, A> {
    (s: State<V>) => Step(Failure(Fail(e)), s)
  }

  /** `flatMap`: run `m`, then the effect `f` builds from its value. */
  function FlatMap<V, E, A, B>(m: Effect<V, E, A>, f: A -> Effect<V, E, B>): Effect<V, E, B> {
    (s: State<V>) =>
      var st := m(s);
      match st.exit
      case Success(a) => f(a)(st.state)
      case Failure(c) => Step(Failure(c), st.state)
  }

  /** `map`. */
  function Map<V, E, A, B>(m: Effect<V, E, A>, f: A -> B): Effect<V, E, B> {
    (s: State<V>) =>
      var st := m(s);
      match st.exit
      case Success(a) => Step(Success(f(a)), st.state)
      case Failure(c) => Step(Failure(c), st.state)
  }

  /** `mapError`: maps an application error; an interruption passes through. */
  function MapError<V, E, E2, A>(m: Effect<V, E, A>, f: E -> E2): Effect<V, E2, A> {
    (s: State<V>) =>
      var st := m(s);
      match st.exit
      case Success(a) => Step(Success(a), st.state)
      case Failure(Fail(e)) => Step(Failure(Fail(f(e))), st.state)
      case Failure(Interrupt) => Step(Failure(Interrupt), st.state)
  }

  /**
   * `foldEffect` on an effect: continues with `onFail` on an application error and with
   * `onSuccess` on a value; an interruption is not caught.
   */
  function Fold<V, E, E2, A, B>(m: Effect<V, E, A>, onFail: E -> Effect<V, E2, B>,
                                onSuccess: A -> Effect<V, E2, B>): Effect<V, E2, B> {
    (s: State<V>) =>
      var st := m(s);
      match st.exit
      case Success(a) => onSuccess(a)(st.state)
      case Failure(Fail(e)) => onFail(e)(st.state)
      case Failure(Interrupt) => Step(Failure(Interrupt), st.state)
  }

  /** `Effect.fromEither`. */
  function FromEither<V, E, A>(x: Either<E, A>): Effect<V, E, A> {
    match x
    case Left(e) => FailNow(e)
    case Right(a) => SucceedNow(a)
  }

  /**
   * `ensuring`: runs `m`, then the finalizer on whatever state `m` left, on
   * every exit. The finalizers used here cannot fail, so they are plain
   * state transitions.
   */
  function Ensuring<V, E, A>(m: Effect<V, E, A>, finalizer: State<V> -> State<V>): Effect<V, E, A> {
    (s: State<V>) =>
      var st := m(s);
      Step(st.exit, finalizer(st.state))
  }

  /** What `FromEither` does, one step unfolded. */
  lemma FromEitherStep<V, E, A>(x: Either<E, A>, s: State<V>)
    ensures FromEither(x)(s) == match x
                                case Left(e) => Step(Failure(Fail(e)), s)
                                case Right(a) => Step(Success(a), s)
  {
  }

  /** The free permits of `x`; a semaphore the map does not know has none. */
  function Available(p: Permits, x: Semaphore): nat {
    if x in p then p[x] else 0
  }

  /** Every semaphore of `sems` has a free permit. */
  predicate CanAcquire(p: Permits, sems: set<Semaphore>) {
    forall x :: x in sems ==> Available(p, x) >= 1
  }

  /** One permit taken from every semaphore of `sems`. */
  function Acquired(p: Permits, sems: set<Semaphore>): (q: Permits)
    requires CanAcquire(p, sems)
    ensures q.Keys == p.Keys
    ensures forall x :: x in sems ==> Available(q, x) == Available(p, x) - 1
    ensures forall x :: x !in sems ==> Available(q, x) == Available(p, x)
  {
    map x | x in p :: if x in sems then p[x] - 1 else p[x]
  }

  /** One permit given back to every semaphore of `sems`. */
  function Released(p: Permits, sems: set<Semaphore>): (q: Permits)
    ensures q.Keys == p.Keys
    ensures forall x :: x in sems && x in p ==> Available(q, x) == Available(p, x) + 1
    ensures forall x :: x !in sems ==> Available(q, x) == Available(p, x)
  {
    map x | x in p :: if x in sems then p[x] + 1 else p[x]
  }

  /**
   * `STM.commit(STM.forEach_(sems, S.acquire))`: takes a permit from every
   * semaphore at once, or none. When some semaphore has no free permit the
   * transaction retries, so the fiber waits; with no other fiber to release
   * a permit, the wait ends only by interruption, which is how the model
   * shows it, leaving every count as it was.
   */
  function AcquireAll<V, E>(sems: set<Semaphore>): Effect<V, E, ()> {
    (s: State<V>) =>
      if CanAcquire(s.permits, sems) then Step(Success(()), s.(permits := Acquired(s.permits, sems)))
      else Step(Failure(Interrupt), s)
  }

  /** `STM.commit(STM.forEach_(sems, S.release))`. */
  function ReleaseAll<V>(sems: set<Semaphore>): State<V> -> State<V> {
    (s: State<V>) => s.(permits := Released(s.permits, sems))
  }

  /** The effect never changes a permit count, whatever it returns. */
  ghost predicate KeepsPermits<V(!new), E, A>(m: Effect<V, E, A>) {
    forall s :: m(s).state.permits == s.permits
  }

  /** Releasing what was just acquired restores every count. */
  lemma ReleaseUndoesAcquire(p: Permits, sems: set<Semaphore>)
    requires CanAcquire(p, sems)
    ensures Released(Acquired(p, sems), sems) == p
  {
    var q := Released(Acquired(p, sems), sems);
    forall x | x in p ensures q[x] == p[x] {
      if x in sems {
        assert Available(p, x) >= 1;
      }
    }
  }
}
