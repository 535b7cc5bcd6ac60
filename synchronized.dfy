/**
 * `XSynchronized`: a reference guarded by a set of semaphores, given by the
 * effect that reads it and the effect that writes it. Values of this type
 * are never mutated; the views built by `FoldEffect` and `FoldAllEffect`
 * are new references over the same semaphores and the same storage.
 */
module SynchronizedRef {
  import opened DataTypes
  import opened Exits
  import opened Effects

  datatype XSynchronized<!V, EA, EB, !A, B> = XSynchronized(
    semaphores: set<Semaphore>,
    unsafeGet: Effect<V, EB, B>,
    unsafeSet: A -> Effect<V, EA, ()>)
  {
    /**
     * `_withPermit`: takes a permit from every semaphore in one commit,
     * runs `body`, and gives the permits back whatever `body` ends with.
     * The uninterruptible mask around it is what makes the release
     * registered as soon as the acquisition has committed; both the
     * acquisition and `body` themselves stay interruptible.
     */
    function WithPermit<E, R>(body: Effect<V, E, R>): Effect<V, E, R> {
      FlatMap(AcquireAll<V, E>(semaphores), (_: ()) => Ensuring(body, ReleaseAll(semaphores)))
    }

    /** `_get`: with one semaphore the read takes no permit. */
    function Get(): Effect<V, EB, B> {
      if |semaphores| == 1 then unsafeGet else WithPermit(unsafeGet)
    }

    /** `_set`: the write always runs under the permits. */
    function Set(a: A): Effect<V, EA, ()> {
      WithPermit(unsafeSet(a))
    }

    /** `_fold`: `FoldEffect` with pure transformations. */
    function Fold<EC, ED, C, D>(ea: EA -> EC, eb: EB -> ED, ca: C -> Either<EC, A>,
                                bd: B -> Either<ED, D>): XSynchronized<V, EC, ED, C, D> {
      FoldEffect(this, ea, eb, (c: C) => FromEither(ca(c)), (b: B) => FromEither(bd(b)))
    }

    /**
     * `_foldAll`: the fold-all view with pure transformations, built on the
     * corrected `FoldAllEffectFixed` (see `FoldAllViewSelfBlocks`).
     */
    function FoldAll<EC, ED, C, D>(ea: EA -> EC, eb: EB -> ED, ec: EB -> EC, ca: C -> B -> Either<EC, A>,
                                   bd: B -> Either<ED, D>): XSynchronized<V, EC, ED, C, D> {
      FoldAllEffectFixed(this, ea, eb, ec, (c: C) => (b: B) => FromEither(ca(c)(b)), (b: B) => FromEither(bd(b)))
    }
  }

  /**
   * `foldEffect_`: a view that reads with `unsafeGet` followed by `bd`
   * (read errors through `eb`) and writes by running `ca` and then
   * `unsafeSet` (write errors through `ea`), over the same semaphores.
   */
  function FoldEffect<V, EA, EB, EC, ED, A, B, C, D>(
    self: XSynchronized<V, EA, EB, A, B>, ea: EA -> EC, eb: EB -> ED,
    ca: C -> Effect<V, EC, A>, bd: B -> Effect<V, ED, D>): XSynchronized<V, EC, ED, C, D>
  {
    XSynchronized(
      self.semaphores,
      Effects.Fold(self.unsafeGet, (e: EB) => FailNow(eb(e)), bd),
      (c: C) => FlatMap(ca(c), (a: A) => MapError(self.unsafeSet(a), ea)))
  }

  /**
   * The fold-all view over `self` whose reads of `self` are done by `read`:
   * it reads with `read` followed by `bd` (read errors through `eb`), and
   * writes by reading with `read` (read errors through `ec`), running
   * `ca(c)` on the value read and then `unsafeSet` (write errors through
   * `ea`), over the same semaphores.
   */
  function FoldAllView<V, EA, EB, EC, ED, A, B, C, D>(
    self: XSynchronized<V, EA, EB, A, B>, read: Effect<V, EB, B>, ea: EA -> EC, eb: EB -> ED, ec: EB -> EC,
    ca: C -> B -> Effect<V, EC, A>, bd: B -> Effect<V, ED, D>): XSynchronized<V, EC, ED, C, D>
  {
    XSynchronized(
      self.semaphores,
      Effects.Fold(read, (e: EB) => FailNow(eb(e)), bd),
      (c: C) => Effects.Fold(read, (e: EB) => FailNow(ec(e)),
                             (b: B) => FlatMap(ca(c)(b), (a: A) => MapError(self.unsafeSet(a), ea))))
  }

  /**
   * `foldAllEffect_`: like `FoldEffect`, but the write first reads the
   * reference with `self.Get()` (read errors through `ec`) and hands the
   * value read to `ca`; the read path also goes through `self.Get()`.
   */
  function FoldAllEffect<V, EA, EB, EC, ED, A, B, C, D>(
    self: XSynchronized<V, EA, EB, A, B>, ea: EA -> EC, eb: EB -> ED, ec: EB -> EC,
    ca: C -> B -> Effect<V, EC, A>, bd: B -> Effect<V, ED, D>): XSynchronized<V, EC, ED, C, D>
  {
    FoldAllView(self, self.Get(), ea, eb, ec, ca, bd)
  }

  /**
   * A reference directly over the cell of the state, guarded by `sems`:
   * what `Synchronized.make` builds (that constructor is not part of this
   * model, only the reference it returns).
   */
  function CellRef<V, E>(sems: set<Semaphore>): XSynchronized<V, E, E, V, V> {
    XSynchronized(sems, (s: State<V>) => Step(Success(s.cell), s),
                  (a: V) => (s: State<V>) => Step(Success(()), s.(cell := a)))
  }

  /**
   * The corrected `foldAllEffect_`: the view reads the underlying reference
   * with `unsafeGet`, as `foldEffect_` does, leaving the permits to the
   * view's own `Get` and `Set`.
   */
  function FoldAllEffectFixed<V, EA, EB, EC, ED, A, B, C, D>(
    self: XSynchronized<V, EA, EB, A, B>, ea: EA -> EC, eb: EB -> ED, ec: EB -> EC,
    ca: C -> B -> Effect<V, EC, A>, bd: B -> Effect<V, ED, D>): XSynchronized<V, EC, ED, C, D>
  {
    FoldAllView(self, self.unsafeGet, ea, eb, ec, ca, bd)
  }

  /**
   * The bracketing of `_withPermit`: when some semaphore has no free permit
   * the body never runs and nothing is released; otherwise the body runs
   * once on the state with one permit taken from every semaphore, its exit
   * is the result, and the permits are given back on whatever state it left.
   */
  lemma WithPermitBrackets<V, EA, EB, A, B, E, R>(self: XSynchronized<V, EA, EB, A, B>,
                                                  body: Effect<V, E, R>, s: State<V>)
    ensures !CanAcquire(s.permits, self.semaphores) ==> self.WithPermit(body)(s) == Step(Failure(Interrupt), s)
    ensures CanAcquire(s.permits, self.semaphores) ==>
              var held := s.(permits := Acquired(s.permits, self.semaphores));
              self.WithPermit(body)(s)
              == Step(body(held).exit, body(held).state.(permits := Released(body(held).state.permits, self.semaphores)))
  {
  }

  /**
   * No permit leak: when the body itself leaves the permits alone, a
   * `_withPermit` around it leaves every count as it found it, on success,
   * on failure and on interruption alike.
   */
  lemma WithPermitKeepsPermits<V(!new), EA, EB, A, B, E, R>(self: XSynchronized<V, EA, EB, A, B>,
                                                            body: Effect<V, E, R>)
    requires KeepsPermits(body)
    ensures KeepsPermits(self.WithPermit(body))
  {
    forall s: State<V> ensures self.WithPermit(body)(s).state.permits == s.permits {
      if CanAcquire(s.permits, self.semaphores) {
        ReleaseUndoesAcquire(s.permits, self.semaphores);
      }
    }
  }

  /**
   * Mutual exclusion: while one `_withPermit` holds the last permit of a
   * semaphore, a `_withPermit` of any reference sharing that semaphore
   * cannot start its body. Here the inner one is given up by interruption,
   * and the outer one still gives back what it took.
   */
  lemma HeldPermitExcludesOthers<V, EA, EB, A, B, EA2, EB2, A2, B2, E, R>(
    self: XSynchronized<V, EA, EB, A, B>, other: XSynchronized<V, EA2, EB2, A2, B2>,
    body: Effect<V, E, R>, s: State<V>, x: Semaphore)
    requires x in self.semaphores && x in other.semaphores
    requires Available(s.permits, x) == 1
    requires CanAcquire(s.permits, self.semaphores)
    ensures self.WithPermit(other.WithPermit(body))(s) == Step(Failure(Interrupt), s)
  {
    var held := s.(permits := Acquired(s.permits, self.semaphores));
    assert Available(held.permits, x) == 0;
    assert !CanAcquire(held.permits, other.semaphores);
    ReleaseUndoesAcquire(s.permits, self.semaphores);
  }

  /**
   * The read fast path: with exactly one semaphore `_get` is `unsafeGet`
   * itself and takes no permit, whatever the permit counts.
   */
  lemma SingleSemaphoreReadTakesNoPermit<V, EA, EB, A, B>(self: XSynchronized<V, EA, EB, A, B>, s: State<V>)
    requires |self.semaphores| == 1
    ensures self.Get()(s) == self.unsafeGet(s)
  {
  }

  /**
   * `_set` always waits for the permits: while one is held the write does
   * not happen, so with one semaphore a read can go on beside a writer
   * that every other write must wait for.
   */
  lemma HeldPermitBlocksWrite<V, EA, EB, A, B>(self: XSynchronized<V, EA, EB, A, B>, a: A, s: State<V>)
    requires !CanAcquire(s.permits, self.semaphores)
    ensures self.Set(a)(s) == Step(Failure(Interrupt), s)
  {
  }

  /**
   * With any other number of semaphores `_get` takes the permits too: while
   * one of them is held the read does not happen.
   */
  lemma ComposedReadTakesPermits<V, EA, EB, A, B>(self: XSynchronized<V, EA, EB, A, B>, s: State<V>)
    requires |self.semaphores| != 1
    requires !CanAcquire(s.permits, self.semaphores)
    ensures self.Get()(s) == Step(Failure(Interrupt), s)
  {
  }

  /** `_get` and `_set` never leak a permit when the raw effects take none. */
  lemma GetSetKeepPermits<V(!new), EA, EB, A, B>(self: XSynchronized<V, EA, EB, A, B>, a: A)
    requires KeepsPermits(self.unsafeGet) && KeepsPermits(self.unsafeSet(a))
    ensures KeepsPermits(self.Get()) && KeepsPermits(self.Set(a))
  {
    WithPermitKeepsPermits(self, self.unsafeGet);
    WithPermitKeepsPermits(self, self.unsafeSet(a));
  }

  /**
   * On a reference over the cell, `_set(a)` with the permits free stores
   * `a` and gives the permits back, and `_get` then returns `a`.
   */
  lemma CellSetThenGet<V, E>(sems: set<Semaphore>, a: V, s: State<V>)
    requires CanAcquire(s.permits, sems)
    ensures CellRef<V, E>(sems).Set(a)(s) == Step(Success(()), s.(cell := a))
    ensures CellRef<V, E>(sems).Get()(s.(cell := a)) == Step(Success(a), s.(cell := a))
  {
    ReleaseUndoesAcquire(s.permits, sems);
  }

  /**
   * `foldEffect_` as written: the view keeps the semaphores; its read is
   * `unsafeGet` followed by `bd`, a read error mapped by `eb`; its write
   * runs `ca(c)` and then `unsafeSet`, a write error mapped by `ea`.
   */
  lemma FoldEffectPaths<V, EA, EB, EC, ED, A, B, C, D>(
    self: XSynchronized<V, EA, EB, A, B>, ea: EA -> EC, eb: EB -> ED,
    ca: C -> Effect<V, EC, A>, bd: B -> Effect<V, ED, D>, c: C, s: State<V>)
    ensures FoldEffect(self, ea, eb, ca, bd).semaphores == self.semaphores
    ensures var g := self.unsafeGet(s);
            FoldEffect(self, ea, eb, ca, bd).unsafeGet(s)
            == match g.exit
               case Success(b) => bd(b)(g.state)
               case Failure(Fail(e)) => Step(Failure(Fail(eb(e))), g.state)
               case Failure(Interrupt) => Step(Failure(Interrupt), g.state)
    ensures var w := ca(c)(s);
            FoldEffect(self, ea, eb, ca, bd).unsafeSet(c)(s)
            == match w.exit
               case Success(a) => MapError(self.unsafeSet(a), ea)(w.state)
               case Failure(cause) => Step(Failure(cause), w.state)
  {
  }

  /**
   * `_fold` agrees with lifting its pure functions: the view's read is
   * `unsafeGet` followed by `bd` as an exit, without touching the state.
   */
  lemma FoldLiftsEither<V, EA, EB, EC, ED, A, B, C, D>(
    self: XSynchronized<V, EA, EB, A, B>, ea: EA -> EC, eb: EB -> ED,
    ca: C -> Either<EC, A>, bd: B -> Either<ED, D>, c: C, s: State<V>)
    ensures self.Fold(ea, eb, ca, bd).semaphores == self.semaphores
    ensures var g := self.unsafeGet(s);
            self.Fold(ea, eb, ca, bd).unsafeGet(s)
            == match g.exit
               case Success(b) => (match bd(b)
                                   case Right(d) => Step(Success(d), g.state)
                                   case Left(e) => Step(Failure(Fail(e)), g.state))
               case Failure(Fail(e)) => Step(Failure(Fail(eb(e))), g.state)
               case Failure(Interrupt) => Step(Failure(Interrupt), g.state)
    ensures self.Fold(ea, eb, ca, bd).unsafeSet(c)(s)
            == match ca(c)
               case Right(a) => MapError(self.unsafeSet(a), ea)(s)
               case Left(e) => Step(Failure(Fail(e)), s)
  {
    var view := self.Fold(ea, eb, ca, bd);
    var m: Effect<V, EC, A> := FromEither(ca(c));
    assert view.unsafeSet(c) == FlatMap(m, (a: A) => MapError(self.unsafeSet(a), ea));
    FromEitherStep<V, EC, A>(ca(c), s);
  }

  /**
   * A `_fold` view shares the storage: writing `c` through a view that
   * encodes with `enc` stores `enc(c)` in the cell, and reading through the
   * view decodes it back to `c` when `dec` inverts `enc`.
   */
  lemma FoldRoundTrip<V, E, C>(sems: set<Semaphore>, enc: C -> V, dec: V -> C, c: C, s: State<V>)
    requires CanAcquire(s.permits, sems)
    requires dec(enc(c)) == c
    ensures var view := CellRef<V, E>(sems).Fold((e: E) => e, (e: E) => e,
                                                 (x: C) => Right(enc(x)), (v: V) => Right(dec(v)));
            && view.Set(c)(s) == Step(Success(()), s.(cell := enc(c)))
            && view.Get()(s.(cell := enc(c))) == Step(Success(c), s.(cell := enc(c)))
  {
    ReleaseUndoesAcquire(s.permits, sems);
    var base := CellRef<V, E>(sems);
    var view := base.Fold((e: E) => e, (e: E) => e, (x: C) => Right(enc(x)), (v: V) => Right(dec(v)));
    var held := s.(permits := Acquired(s.permits, sems));
    var m: Effect<V, E, V> := FromEither(Right(enc(c)));
    assert view.unsafeSet(c) == FlatMap(m, (a: V) => MapError(base.unsafeSet(a), (e: E) => e));
    FromEitherStep<V, E, V>(Right(enc(c)), held);
    assert view.unsafeSet(c)(held) == Step(Success(()), held.(cell := enc(c)));
    var t := s.(cell := enc(c));
    var theld := t.(permits := Acquired(t.permits, sems));
    FromEitherStep<V, E, C>(Right(dec(enc(c))), t);
    FromEitherStep<V, E, C>(Right(dec(enc(c))), theld);
    assert view.unsafeGet(t) == Step(Success(c), t);
    assert view.unsafeGet(theld) == Step(Success(c), theld);
  }

  /**
   * `_foldAll` gives the write the current value: on a reference over the
   * cell with its permits free, writing `c` stores `upd(c)(current)`, or
   * fails with the error of `upd` and stores nothing; the permits come back.
   */
  lemma FoldAllWriteSeesCurrentValue<V, E, C>(sems: set<Semaphore>, upd: C -> V -> Either<E, V>, c: C, s: State<V>)
    requires CanAcquire(s.permits, sems)
    ensures var view := CellRef<V, E>(sems).FoldAll((e: E) => e, (e: E) => e, (e: E) => e,
                                                   upd, (v: V) => Right(v));
            view.Set(c)(s) == match upd(c)(s.cell)
                              case Right(v) => Step(Success(()), s.(cell := v))
                              case Left(e) => Step(Failure(Fail(e)), s)
  {
    ReleaseUndoesAcquire(s.permits, sems);
    var base := CellRef<V, E>(sems);
    var view := base.FoldAll((e: E) => e, (e: E) => e, (e: E) => e, upd, (v: V) => Right(v));
    var held := s.(permits := Acquired(s.permits, sems));
    var m: Effect<V, E, V> := FromEither(upd(c)(s.cell));
    assert view.unsafeSet(c)(held) == FlatMap(m, (a: V) => MapError(base.unsafeSet(a), (e: E) => e))(held);
    FromEitherStep<V, E, V>(upd(c)(s.cell), held);
  }

  /**
   * The paths of the fold-all view over any read: same semaphores; the
   * read is `read` then `bd`, a read error mapped by `eb`; the write reads
   * with `read`, a read error mapped by `ec`, hands the value read to
   * `ca(c)`, and writes with `unsafeSet`, a write error mapped by `ea`; an
   * interruption passes through every step unchanged.
   */
  lemma FoldAllViewPaths<V, EA, EB, EC, ED, A, B, C, D>(
    self: XSynchronized<V, EA, EB, A, B>, read: Effect<V, EB, B>, ea: EA -> EC, eb: EB -> ED, ec: EB -> EC,
    ca: C -> B -> Effect<V, EC, A>, bd: B -> Effect<V, ED, D>, c: C, s: State<V>)
    ensures FoldAllView(self, read, ea, eb, ec, ca, bd).semaphores == self.semaphores
    ensures var g := read(s);
            FoldAllView(self, read, ea, eb, ec, ca, bd).unsafeGet(s)
            == match g.exit
               case Success(b) => bd(b)(g.state)
               case Failure(Fail(e)) => Step(Failure(Fail(eb(e))), g.state)
               case Failure(Interrupt) => Step(Failure(Interrupt), g.state)
    ensures var g := read(s);
            FoldAllView(self, read, ea, eb, ec, ca, bd).unsafeSet(c)(s)
            == match g.exit
               case Failure(Fail(e)) => Step(Failure(Fail(ec(e))), g.state)
               case Failure(Interrupt) => Step(Failure(Interrupt), g.state)
               case Success(b) =>
                 var m := ca(c)(b)(g.state);
                 match m.exit
                 case Failure(cause) => Step(Failure(cause), m.state)
                 case Success(a) =>
                   var w := self.unsafeSet(a)(m.state);
                   match w.exit
                   case Success(u) => Step(Success(u), w.state)
                   case Failure(Fail(e)) => Step(Failure(Fail(ea(e))), w.state)
                   case Failure(Interrupt) => Step(Failure(Interrupt), w.state)
  {
  }

  /**
   * `foldAllEffect_` as written: the view keeps the semaphores; its read is
   * `self.Get()` followed by `bd`, a read error mapped by `eb`; its write
   * reads with `self.Get()`, a read error mapped by `ec`, hands the value
   * read to `ca(c)`, and writes with `unsafeSet`, a write error mapped by
   * `ea`; an interruption passes through every step unchanged.
   */
  lemma FoldAllEffectPaths<V, EA, EB, EC, ED, A, B, C, D>(
    self: XSynchronized<V, EA, EB, A, B>, ea: EA -> EC, eb: EB -> ED, ec: EB -> EC,
    ca: C -> B -> Effect<V, EC, A>, bd: B -> Effect<V, ED, D>, c: C, s: State<V>)
    ensures FoldAllEffect(self, ea, eb, ec, ca, bd).semaphores == self.semaphores
    ensures var g := self.Get()(s);
            FoldAllEffect(self, ea, eb, ec, ca, bd).unsafeGet(s)
            == match g.exit
               case Success(b) => bd(b)(g.state)
               case Failure(Fail(e)) => Step(Failure(Fail(eb(e))), g.state)
               case Failure(Interrupt) => Step(Failure(Interrupt), g.state)
    ensures var g := self.Get()(s);
            FoldAllEffect(self, ea, eb, ec, ca, bd).unsafeSet(c)(s)
            == match g.exit
               case Failure(Fail(e)) => Step(Failure(Fail(ec(e))), g.state)
               case Failure(Interrupt) => Step(Failure(Interrupt), g.state)
               case Success(b) =>
                 var m := ca(c)(b)(g.state);
                 match m.exit
                 case Failure(cause) => Step(Failure(cause), m.state)
                 case Success(a) =>
                   var w := self.unsafeSet(a)(m.state);
                   match w.exit
                   case Success(u) => Step(Success(u), w.state)
                   case Failure(Fail(e)) => Step(Failure(Fail(ea(e))), w.state)
                   case Failure(Interrupt) => Step(Failure(Interrupt), w.state)
  {
    FoldAllViewPaths(self, self.Get(), ea, eb, ec, ca, bd, c, s);
  }

  /**
   * The corrected view has the same paths as the one written, with the
   * underlying read done by `unsafeGet`: same semaphores, read errors
   * through `eb` on the read path and through `ec` on the write path,
   * write errors through `ea`, interruption passing through.
   */
  lemma FoldAllFixedPaths<V, EA, EB, EC, ED, A, B, C, D>(
    self: XSynchronized<V, EA, EB, A, B>, ea: EA -> EC, eb: EB -> ED, ec: EB -> EC,
    ca: C -> B -> Effect<V, EC, A>, bd: B -> Effect<V, ED, D>, c: C, s: State<V>)
    ensures FoldAllEffectFixed(self, ea, eb, ec, ca, bd).semaphores == self.semaphores
    ensures var g := self.unsafeGet(s);
            FoldAllEffectFixed(self, ea, eb, ec, ca, bd).unsafeGet(s)
            == match g.exit
               case Success(b) => bd(b)(g.state)
               case Failure(Fail(e)) => Step(Failure(Fail(eb(e))), g.state)
               case Failure(Interrupt) => Step(Failure(Interrupt), g.state)
    ensures var g := self.unsafeGet(s);
            FoldAllEffectFixed(self, ea, eb, ec, ca, bd).unsafeSet(c)(s)
            == match g.exit
               case Failure(Fail(e)) => Step(Failure(Fail(ec(e))), g.state)
               case Failure(Interrupt) => Step(Failure(Interrupt), g.state)
               case Success(b) =>
                 var m := ca(c)(b)(g.state);
                 match m.exit
                 case Failure(cause) => Step(Failure(cause), m.state)
                 case Success(a) =>
                   var w := self.unsafeSet(a)(m.state);
                   match w.exit
                   case Success(u) => Step(Success(u), w.state)
                   case Failure(Fail(e)) => Step(Failure(Fail(ea(e))), w.state)
                   case Failure(Interrupt) => Step(Failure(Interrupt), w.state)
  {
    FoldAllViewPaths(self, self.unsafeGet, ea, eb, ec, ca, bd, c, s);
  }

  /**
   * `_foldAll` agrees with lifting its pure functions into the fold-all
   * view: a `Right` of `bd` or `ca(c)(b)` continues, a `Left` fails with
   * its error without touching the state, and the errors of the underlying
   * read and write are mapped as in `FoldAllFixedPaths`.
   */
  lemma FoldAllLiftsEither<V, EA, EB, EC, ED, A, B, C, D>(
    self: XSynchronized<V, EA, EB, A, B>, ea: EA -> EC, eb: EB -> ED, ec: EB -> EC,
    ca: C -> B -> Either<EC, A>, bd: B -> Either<ED, D>, c: C, s: State<V>)
    ensures self.FoldAll(ea, eb, ec, ca, bd).semaphores == self.semaphores
    ensures var g := self.unsafeGet(s);
            self.FoldAll(ea, eb, ec, ca, bd).unsafeGet(s)
            == match g.exit
               case Success(b) => (match bd(b)
                                   case Right(d) => Step(Success(d), g.state)
                                   case Left(e) => Step(Failure(Fail(e)), g.state))
               case Failure(Fail(e)) => Step(Failure(Fail(eb(e))), g.state)
               case Failure(Interrupt) => Step(Failure(Interrupt), g.state)
    ensures var g := self.unsafeGet(s);
            self.FoldAll(ea, eb, ec, ca, bd).unsafeSet(c)(s)
            == match g.exit
               case Failure(Fail(e)) => Step(Failure(Fail(ec(e))), g.state)
               case Failure(Interrupt) => Step(Failure(Interrupt), g.state)
               case Success(b) =>
                 match ca(c)(b)
                 case Left(e) => Step(Failure(Fail(e)), g.state)
                 case Right(a) => MapError(self.unsafeSet(a), ea)(g.state)
  {
    var view := self.FoldAll(ea, eb, ec, ca, bd);
    var g := self.unsafeGet(s);
    if g.exit.Success? {
      var b := g.exit.value;
      var m: Effect<V, EC, A> := FromEither(ca(c)(b));
      assert view.unsafeSet(c)(s) == FlatMap(m, (a: A) => MapError(self.unsafeSet(a), ea))(g.state);
      FromEitherStep<V, EC, A>(ca(c)(b), g.state);
      FromEitherStep<V, ED, D>(bd(b), g.state);
    }
  }

  /**
   * `foldAllEffect_` as written, on a reference guarded by two or more
   * semaphores with one permit each and no other fiber holding any: the
   * reference itself reads, but the view's `Get` and `Set` take every permit
   * and then read through `self.Get()`, which needs the permits again, so
   * neither can go on until it is interrupted.
   */
  lemma FoldAllViewSelfBlocks<V, E, C, D>(sems: set<Semaphore>, ca: C -> V -> Effect<V, E, V>,
                                          bd: V -> Effect<V, E, D>, c: C, s: State<V>)
    requires |sems| >= 2
    requires forall x :: x in sems ==> Available(s.permits, x) == 1
    ensures CellRef<V, E>(sems).Get()(s) == Step(Success(s.cell), s)
    ensures var view := FoldAllEffect(CellRef<V, E>(sems), (e: E) => e, (e: E) => e, (e: E) => e, ca, bd);
            && view.Get()(s) == Step(Failure(Interrupt), s)
            && view.Set(c)(s) == Step(Failure(Interrupt), s)
  {
    ReleaseUndoesAcquire(s.permits, sems);
    var x :| x in sems;
    var held := Acquired(s.permits, sems);
    assert Available(held, x) == 0;
    assert !CanAcquire(held, sems);
  }

  /**
   * The corrected view reads and writes on the same reference: with every
   * permit free, the read decodes the cell and the write stores
   * `upd(c)(current)`, and both give the permits back.
   */
  lemma FoldAllFixedReadsAndWrites<V, E, C, D>(sems: set<Semaphore>, upd: C -> V -> V, dec: V -> D,
                                               c: C, s: State<V>)
    requires CanAcquire(s.permits, sems)
    ensures var view := FoldAllEffectFixed(CellRef<V, E>(sems), (e: E) => e, (e: E) => e, (e: E) => e,
                                           (x: C) => (v: V) => SucceedNow(upd(x)(v)), (v: V) => SucceedNow(dec(v)));
            && view.Get()(s) == Step(Success(dec(s.cell)), s)
            && view.Set(c)(s) == Step(Success(()), s.(cell := upd(c)(s.cell)))
  {
    ReleaseUndoesAcquire(s.permits, sems);
    var base := CellRef<V, E>(sems);
    var ca := (x: C) => (v: V) => SucceedNow<V, E, V>(upd(x)(v));
    var view := FoldAllEffectFixed(base, (e: E) => e, (e: E) => e, (e: E) => e, ca, (v: V) => SucceedNow<V, E, D>(dec(v)));
    var held := s.(permits := Acquired(s.permits, sems));
    assert view.unsafeSet(c)(held) == FlatMap(ca(c)(held.cell), (a: V) => MapError(base.unsafeSet(a), (e: E) => e))(held);
  }

  /**
   * With one semaphore, where `self.Get()` is `unsafeGet`, the corrected
   * view behaves exactly as the one written.
   */
  lemma FoldAllFixedAgreesOnSingleSemaphore<V, EA, EB, EC, ED, A, B, C, D>(
    self: XSynchronized<V, EA, EB, A, B>, ea: EA -> EC, eb: EB -> ED, ec: EB -> EC,
    ca: C -> B -> Effect<V, EC, A>, bd: B -> Effect<V, ED, D>, c: C, s: State<V>)
    requires |self.semaphores| == 1
    ensures FoldAllEffectFixed(self, ea, eb, ec, ca, bd).semaphores == FoldAllEffect(self, ea, eb, ec, ca, bd).semaphores
    ensures FoldAllEffectFixed(self, ea, eb, ec, ca, bd).unsafeGet(s) == FoldAllEffect(self, ea, eb, ec, ca, bd).unsafeGet(s)
    ensures FoldAllEffectFixed(self, ea, eb, ec, ca, bd).unsafeSet(c)(s) == FoldAllEffect(self, ea, eb, ec, ca, bd).unsafeSet(c)(s)
  {
  }
}
