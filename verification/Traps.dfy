/**
 When an event ends the process: exactly when it divides by the length of a loop without one, or makes
 a negative priority an index. The condition is on the state before the event.
 */
module Traps {

  import opened Options
  import opened Molecules
  import opened Scheduling
  import opened Playing

  /** Every molecule is ready, and the active one, if there is one, is next. Discards that stall keep this too. */
  ghost predicate Calm(s: State) {
    Wellformed(s) && Ready(s) && (s.active.Some? ==> ActiveIsNext(s))
  }

  /** m loops by the clock without a length, and has been started, or stopped if it pauses. */
  predicate Divides(m: Mol, stopped: nat) {
    m.mode.loop && Total(m.atoms) == 0 && if m.mode.mute then m.started != 0 else m.mode.pause && stopped != 0
  }

  /** The same when the atom under the cursor ends: a restart, or a pause at the end, needs no division. */
  predicate DividesAtEnd(m: Mol, stopped: nat) {
    && Divides(m, stopped)
    && (m.mode.restart || !m.mode.mute ==> m.cur + 1 < |m.atoms|)
  }

  /** m is done when the atom under its cursor ends. */
  predicate Finishes(m: Mol) {
    m.cur + 1 >= |m.atoms| && !m.mode.Immortal()
  }

  ghost predicate NextDivides(mols: map<nat, Mol>) {
    var k := Next(mols);
    k.Some? && Divides(mols[k.value], mols[k.value].stopped)
  }

  /** The end of the atom of molecule a, which stopped at that time, divides by zero for a or for the one after it. */
  ghost predicate AtomEndDivides(mols: map<nat, Mol>, a: nat, stopped: nat)
    requires a in mols
  {
    DividesAtEnd(mols[a], stopped) || (Finishes(mols[a]) && NextDivides(mols - {a}))
  }

  /** Event e ends the process. */
  ghost predicate Fatal(s: State, e: Event)
    requires Wellformed(s)
  {
    match e
    case Enqueue(token, priority, mode, atoms, now, err) =>
      if priority < 0 then true
      else if priority > MAX_PRIORITY then false
      else if s.active.None? then NextDivides(Push(s, Fresh(e)).mols)
      else s.mols[s.active.value].priority < priority && atoms == [] && Divides(s.mols[s.active.value], now)
    case EndOfFile(now, err) => s.active.Some? && AtomEndDivides(s.mols, s.active.value, now)
    case DtmfBegin(now, err) =>
      && s.active.Some? && DtmfStops(s.mols[s.active.value])
      && AtomEndDivides(s.mols, s.active.value, s.mols[s.active.value].stopped)
    case DiscardToken(token, now, err) =>
      var victims := Victims(s.mols, token, 0);
      ActiveOnTop(s, victims) && NextDivides(s.mols - victims)
    case DiscardRange(prioFrom, prioTo, now, err) =>
      && prioFrom <= MAX_PRIORITY && prioTo <= MAX_PRIORITY
      && ((prioFrom < 0 && prioFrom < prioTo) || NextDivides(s.mols - InRange(s.mols, prioFrom, prioTo)))
  }

  // ---------- schedule ----------

  lemma IdleTraps(s: State, r: Reason, now: nat, err: nat)
    requires Wellformed(s) && Ready(s) && s.active == None
    ensures Schedule(s, r, now, err).Trapped? <==> NextDivides(s.mols)
  {
    if Next(s.mols).Some? {
      var k := Next(s.mols).value;
      assert s.mols[k].IsActive();
      if Reposition(s.mols[k], now).Some? {
        RepositionFrame(s.mols[k], now);
      }
    }
  }

  /** Repositioning the active molecule after its atom has ended. */
  lemma EndedPlace(m: Mol, now: nat)
    requires m.IsActive()
    ensures var c := AtStop(m, SchedEndOfFile, now);
            && (Reposition(c, now).None? <==> DividesAtEnd(m, m.stopped))
            && (Reposition(c, now).Some? ==> (Reposition(c, now).value.IsActive() <==> !Finishes(m)))
  {
    var c := AtStop(m, SchedEndOfFile, now);
    if Reposition(c, now).Some? {
      if m.mode.Immortal() {
        RepositionRevives(c, now);
      }
      RepositionFrame(c, now);
    }
  }

  lemma EndTraps(s: State, a: nat, now: nat, err: nat)
    requires Wellformed(s) && Ready(s) && s.active == Some(a) && IsNext(s.mols, a)
    ensures Schedule(s, SchedEndOfFile, now, err).Trapped? <==> AtomEndDivides(s.mols, a, s.mols[a].stopped)
  {
    NextIs(s.mols, a);
    EndedPlace(s.mols[a], now);
    var s1 := Settle(s, a, SchedEndOfFile, now);
    if Reposition(s1.mols[a], now).Some? {
      var c := Reposition(s1.mols[a], now).value;
      if !c.IsActive() {
        ApproachReady(s, a, SchedEndOfFile, now, c);
        var s2 := Remove(Put(s1, a, c), a, Finished);
        assert s2.mols == s.mols - {a};
        IdleTraps(s2, SchedEndOfFile, now, err);
      }
    }
  }

  /** The active molecule is next again without having ended its atom. */
  lemma InterruptTraps(s: State, a: nat, now: nat, err: nat)
    requires Wellformed(s) && s.active == Some(a) && IsNext(s.mols, a) && s.mols[a].IsActive()
    ensures Schedule(s, SchedInterrupt, now, err).Trapped? <==> Divides(s.mols[a], now)
  {
    NextIs(s.mols, a);
    var c := AtStop(s.mols[a], SchedInterrupt, now);
    assert Settle(s, a, SchedInterrupt, now).mols[a] == c && c.IsActive();
    PrefixSame(s.mols[a].atoms, c.atoms, |c.atoms|);
    if Reposition(c, now).Some? {
      RepositionFrame(c, now);
    }
  }

  /** A new molecule with atoms is next: it has no start or stop that could place it. */
  lemma FreshNeverTraps(s: State, k: nat, now: nat, err: nat)
    requires IsNext(s.mols, k) && s.active != Some(k)
    requires s.mols[k].started == 0 && s.mols[k].stopped == 0 && s.mols[k].cur == 0
    ensures Schedule(s, SchedInterrupt, now, err).Ran?
  {
    NextIs(s.mols, k);
    assert Settle(s, k, SchedInterrupt, now).mols[k] == s.mols[k];
    RepositionFrame(s.mols[k], now);
  }

  // ---------- events and runs ----------

  lemma EnqueueTraps(s: State, e: Event)
    requires Calm(s) && e.Enqueue? && 0 <= e.priority <= MAX_PRIORITY
    ensures Step(s, e).Trapped? <==> Fatal(s, e)
  {
    var prep := Prepare(s, e);
    if s.active.None? {
      IdleTraps(prep.s, SchedInterrupt, e.now, e.err);
    } else if prep.Call? {
      var a, n := s.active.value, |s.enq|;
      if e.atoms == [] {
        assert IsNext(prep.s.mols, a);
        InterruptTraps(prep.s, a, e.now, e.err);
      } else {
        assert IsNext(prep.s.mols, n);
        FreshNeverTraps(prep.s, n, e.now, e.err);
      }
    }
  }

  lemma AtomTraps(s: State, e: Event)
    requires Calm(s) && (e.EndOfFile? || e.DtmfBegin?)
    ensures Step(s, e).Trapped? <==> Fatal(s, e)
  {
    var prep := Prepare(s, e);
    if prep.Call? {
      var a := s.active.value;
      assert IsNext(prep.s.mols, a);
      EndTraps(prep.s, a, e.now, e.err);
      assert prep.s.mols - {a} == s.mols - {a};
    }
  }

  lemma DiscardTraps(s: State, e: Event)
    requires Calm(s) && (e.DiscardToken? || e.DiscardRange?)
    ensures Step(s, e).Trapped? <==> Fatal(s, e)
  {
    if e.DiscardToken? {
      DiscardLevelsEffect(s, e.token, 0, DiscardNothing);
    }
    var prep := Prepare(s, e);
    if prep.Call? {
      PrepareReady(s, e);
      IdleTraps(prep.s, prep.r, e.now, e.err);
    }
  }

  /** An event ends the process if and only if it is fatal, whatever the start of an atom returns. */
  lemma TrapExact(s: State, e: Event)
    requires Calm(s)
    ensures Step(s, e).Trapped? <==> Fatal(s, e)
  {
    match e
    case Enqueue(_, priority, _, _, _, _) =>
      if 0 <= priority <= MAX_PRIORITY {
        EnqueueTraps(s, e);
      }
    case EndOfFile(_, _) => AtomTraps(s, e);
    case DtmfBegin(_, _) => AtomTraps(s, e);
    case DiscardToken(_, _, _) => DiscardTraps(s, e);
    case DiscardRange(_, _, _, _) => DiscardTraps(s, e);
  }

  /** Enqueueing an empty molecule above an active one that is no loop by the clock goes through. */
  lemma EmptyGoesThrough(s: State, e: Event)
    requires Calm(s) && e.Enqueue? && e.atoms == [] && 0 <= e.priority
    requires s.active.Some? && !s.mols[s.active.value].mode.Cyclic()
    ensures Step(s, e).Ran?
  {
    TrapExact(s, e);
  }

  /** While starts succeed, every event that goes through leaves the queue calm. */
  lemma StepCalm(s: State, e: Event)
    requires Calm(s) && e.err == 0 && Step(s, e).Ran?
    ensures Calm(Step(s, e).s)
  {
    PrepareReady(s, e);
    if e.DiscardToken? {
      DiscardLevelsState(s, e.token, 0, DiscardNothing);
    }
    var prep := Prepare(s, e);
    if prep.Call? {
      ScheduleQuiet(prep.s, prep.r, e.now);
    } else if prep.s.active.Some? {
      NextIs(prep.s.mols, s.active.value);
    }
  }

  /** No event of the run is fatal when it comes. */
  ghost predicate NoneFatal(s: State, es: seq<Event>)
    requires Wellformed(s)
    decreases |es|
  {
    es != [] ==> !Fatal(s, es[0]) && (Step(s, es[0]).Ran? ==> NoneFatal(Step(s, es[0]).s, es[1..]))
  }

  lemma {:induction false} RunTraps(s: State, es: seq<Event>)
    requires Calm(s) && forall i :: 0 <= i < |es| ==> es[i].err == 0
    ensures Run(s, es).Ran? <==> NoneFatal(s, es)
    decreases |es|
  {
    if es != [] {
      TrapExact(s, es[0]);
      if Step(s, es[0]).Ran? {
        StepCalm(s, es[0]);
        RunTraps(Step(s, es[0]).s, es[1..]);
      }
    }
  }

  /** A run whose starts succeed goes through if and only if none of its events is fatal. */
  lemma {:induction false} EveryRun(es: seq<Event>)
    requires forall i :: 0 <= i < |es| ==> es[i].err == 0
    ensures Run(INITIAL, es).Ran? <==> NoneFatal(INITIAL, es)
  {
    RunTraps(INITIAL, es);
  }
}
