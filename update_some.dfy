/** `updateSomeEffect_`: an update through a partial function. */
module UpdateSome {
  import opened DataTypes
  import opened Exits
  import opened Effects
  import opened SynchronizedRef

  /**
   * `modifyEffect`, on which the update is built (its definition is not
   * part of this model; it is given the usual shape): under the reference's
   * permits, read with `unsafeGet`, run `f` on the value read, write the
   * second component of its result with `unsafeSet`, return the first.
   */
  function ModifyEffect<V, E, A, R>(self: XSynchronized<V, E, E, A, A>,
                                    f: A -> Effect<V, E, (R, A)>): Effect<V, E, R> {
    self.WithPermit(FlatMap(self.unsafeGet, (a: A) =>
                      FlatMap(f(a), (p: (R, A)) => Map(self.unsafeSet(p.1), (_: ()) => p.0))))
  }

  /**
   * What `modifyEffect` does, step by step: nothing when a permit is
   * missing; otherwise, on the state holding the permits, the read, then
   * `f` on the value read, then the write, stopping at the first that does
   * not succeed, and the permits given back in every case.
   */
  lemma ModifyEffectSteps<V, E, A, R>(self: XSynchronized<V, E, E, A, A>, f: A -> Effect<V, E, (R, A)>,
                                      s: State<V>)
    ensures !CanAcquire(s.permits, self.semaphores) ==> ModifyEffect(self, f)(s) == Step(Failure(Interrupt), s)
    ensures CanAcquire(s.permits, self.semaphores) ==>
              var held := s.(permits := Acquired(s.permits, self.semaphores));
              var g := self.unsafeGet(held);
              ModifyEffect(self, f)(s)
              == GiveBack(self.semaphores,
                   match g.exit
                   case Failure(c) => Step(Failure(c), g.state)
                   case Success(a) =>
                     var m := f(a)(g.state);
                     match m.exit
                     case Failure(c) => Step(Failure(c), m.state)
                     case Success(p) =>
                       var w := self.unsafeSet(p.1)(m.state);
                       match w.exit
                       case Success(_) => Step(Success(p.0), w.state)
                       case Failure(c) => Step(Failure(c), w.state))
  {
    var body := FlatMap(self.unsafeGet, (a: A) =>
                  FlatMap(f(a), (p: (R, A)) => Map(self.unsafeSet(p.1), (_: ()) => p.0)));
    WithPermitBrackets(self, body, s);
  }

  /** A step whose permits on `sems` are given back. */
  function GiveBack<V, E, R>(sems: set<Semaphore>, st: Step<V, E, R>): Step<V, E, R> {
    Step(st.exit, ReleaseAll(sems)(st.state))
  }

  /**
   * The update `updateSomeEffect_` hands to `modifyEffect`: the effect `pf`
   * gives for the value, or the value itself when `pf` gives none, paired
   * with the unit result.
   */
  function UpdateStep<V, E, A>(pf: A -> Option<Effect<V, E, A>>): A -> Effect<V, E, ((), A)> {
    (v: A) => Map(pf(v).GetOrElse(SucceedNow(v)), (result: A) => ((), result))
  }

  /**
   * `updateSomeEffect_`: applies `pf` to the value `modifyEffect` supplies;
   * the result is always the unit value.
   */
  function UpdateSomeEffect<V, E, A>(self: XSynchronized<V, E, E, A, A>,
                                     pf: A -> Option<Effect<V, E, A>>): Effect<V, E, ()> {
    ModifyEffect(self, UpdateStep(pf))
  }

  /**
   * Where `pf` is nowhere defined the update writes back exactly what it
   * read, still under the permits, on any reference.
   */
  lemma UndefinedWritesBackWhatItRead<V, E, A>(self: XSynchronized<V, E, E, A, A>,
                                               pf: A -> Option<Effect<V, E, A>>, s: State<V>)
    requires forall v :: pf(v).None?
    ensures UpdateSomeEffect(self, pf)(s) == self.WithPermit(FlatMap(self.unsafeGet, self.unsafeSet))(s)
  {
    ModifyEffectSteps(self, UpdateStep(pf), s);
    WithPermitBrackets(self, FlatMap(self.unsafeGet, self.unsafeSet), s);
    if CanAcquire(s.permits, self.semaphores) {
      var held := s.(permits := Acquired(s.permits, self.semaphores));
      var g := self.unsafeGet(held);
      if g.exit.Success? {
        var v := g.exit.value;
        assert pf(v).GetOrElse(SucceedNow(v)) == SucceedNow(v);
        assert UpdateStep(pf)(v)(g.state) == Step(Success(((), v)), g.state);
        var w := self.unsafeSet(v)(g.state);
        assert FlatMap(self.unsafeGet, self.unsafeSet)(held) == w;
        if w.exit.Success? {
          match w.exit.value
          case () => assert w.exit == Success(());
        }
      }
    }
  }

  /**
   * On a reference over the cell, where `pf` is undefined at the current
   * value nothing changes: the value stays, the permits come back, and the
   * update still waits for the permits like any write.
   */
  lemma UndefinedKeepsState<V, E>(sems: set<Semaphore>, pf: V -> Option<Effect<V, E, V>>, s: State<V>)
    requires pf(s.cell).None?
    ensures UpdateSomeEffect(CellRef<V, E>(sems), pf)(s)
            == Step(if CanAcquire(s.permits, sems) then Success(()) else Failure(Interrupt), s)
  {
    if CanAcquire(s.permits, sems) {
      ReleaseUndoesAcquire(s.permits, sems);
      var held := s.(permits := Acquired(s.permits, sems));
      var v := s.cell;
      assert pf(v).GetOrElse(SucceedNow(v)) == SucceedNow(v);
      assert UpdateStep(pf)(v)(held) == Step(Success(((), v)), held);
    }
    ModifyEffectSteps(CellRef<V, E>(sems), UpdateStep(pf), s);
  }

  /**
   * On a reference over the cell, where `pf` gives an effect for the current
   * value, that effect runs under the permits: its value becomes the new
   * value and the update returns unit; its failure or interruption is the
   * update's, and whatever it did to the cell stays; the permits come back.
   */
  lemma DefinedStoresResult<V, E>(sems: set<Semaphore>, pf: V -> Option<Effect<V, E, V>>, s: State<V>)
    requires CanAcquire(s.permits, sems)
    requires pf(s.cell).Some?
    requires var held := s.(permits := Acquired(s.permits, sems));
             pf(s.cell).value(held).state.permits == held.permits
    ensures var held := s.(permits := Acquired(s.permits, sems));
            var w := pf(s.cell).value(held);
            UpdateSomeEffect(CellRef<V, E>(sems), pf)(s)
            == match w.exit
               case Success(r) => Step(Success(()), State(r, s.permits))
               case Failure(c) => Step(Failure(c), State(w.state.cell, s.permits))
  {
    ReleaseUndoesAcquire(s.permits, sems);
    var held := s.(permits := Acquired(s.permits, sems));
    var v := s.cell;
    var eff := pf(v).value;
    assert pf(v).GetOrElse(SucceedNow(v)) == eff;
    var w := eff(held);
    ModifyEffectSteps(CellRef<V, E>(sems), UpdateStep(pf), s);
    assert UpdateStep(pf)(v)(held) == match w.exit
                         case Success(r) => Step(Success(((), r)), w.state)
                         case Failure(c) => Step(Failure(c), w.state);
  }
}
