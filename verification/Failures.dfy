/**
 What happens when an atom does not start: the molecule loses that atom and its cursor skips the next,
 and the active molecule is not set. Exactly when the queue is still right after that is proved here,
 and exactly when the molecule goes on with its next atom all the same.
 */
module Failures {

  import opened Options
  import opened Molecules
  import opened Scheduling
  import opened Playing
  import opened Preemption
  import opened Commands
  import opened Traps

  /** At most one molecule can be played, and that has a single atom. */
  ghost predicate OneAtomLeft(mols: map<nat, Mol>) {
    forall k :: k in mols && mols[k].Playable() ==> Next(mols) == Some(k) && |mols[k].atoms| == 1
  }

  /** s' is s but for molecule k, which lost an atom. */
  ghost predicate LosesAtom(s: State, s': State, k: nat) {
    && k in s.mols && s'.mols.Keys == s.mols.Keys
    && (forall j :: j in s.mols && j != k ==> s'.mols[j] == s.mols[j])
    && |s'.mols[k].atoms| == |s.mols[k].atoms| - 1
    && s'.mols[k].priority == s.mols[k].priority
  }

  /** The round in which the start of molecule k fails. */
  lemma FailsAt(s: State, k: nat, r: Reason, now: nat, err: nat, c: Mol)
    requires IsNext(s.mols, k) && err != 0
    requires Reposition(Settle(s, k, r, now).mols[k], now) == Some(c) && c.IsActive()
    ensures Schedule(s, r, now, err) == Ran(FailStart(Put(Settle(s, k, r, now), k, c), k, c), err)
    ensures LosesAtom(Settle(s, k, r, now), Schedule(s, r, now, err).s, k)
    ensures Schedule(s, r, now, err).s.mols[k]
         == c.(atoms := c.atoms[..c.cur] + c.atoms[c.cur + 1..], cur := c.cur + 1)
  {
    NextIs(s.mols, k);
    RepositionFrame(Settle(s, k, r, now).mols[k], now);
  }

  /** When nothing is active, nothing is after the failed start either. */
  lemma IdleFails(s: State, r: Reason, now: nat, err: nat)
    requires Wellformed(s) && Ready(s) && s.active == None && err != 0 && Schedule(s, r, now, err).Ran?
    ensures var o := Schedule(s, r, now, err);
            && o.s.active == None && (Next(s.mols).Some? ==> o.code == err && LosesAtom(s, o.s, Next(s.mols).value))
            && (ActiveIsNext(o.s) <==> OneAtomLeft(s.mols))
  {
    if Next(s.mols).Some? {
      var k := Next(s.mols).value;
      RepositionFrame(s.mols[k], now);
      FailsAt(s, k, r, now, err, Reposition(s.mols[k], now).value);
      NothingLeft(s, Schedule(s, r, now, err).s, k);
    }
  }

  lemma NothingLeft(s: State, s': State, k: nat)
    requires Next(s.mols) == Some(k) && LosesAtom(s, s', k)
    ensures Next(s'.mols) == None <==> OneAtomLeft(s.mols)
  {
    if Next(s'.mols) == None {
      assert forall j :: j in s'.mols ==> !s'.mols[j].Playable();
    } else {
      var j := Next(s'.mols).value;
      assert j in s.mols;
    }
  }

  lemma OnlyOne(mols: map<nat, Mol>, k: nat)
    requires Next(mols) == Some(k)
    ensures OneAtomLeft(mols) <==> |mols[k].atoms| == 1 && Next(mols - {k}) == None
  {
    if Next(mols - {k}).Some? {
      var j := Next(mols - {k}).value;
      assert j in mols && mols[j].Playable() && j != k;
    } else {
      assert forall j :: j in mols && j != k ==> j in mols - {k} && !(mols - {k})[j].Playable();
    }
  }

  // ---------- the next atom of the active molecule ----------

  lemma EndFails(s: State, a: nat, now: nat, err: nat)
    requires Wellformed(s) && Ready(s) && s.active == Some(a) && IsNext(s.mols, a)
    requires err != 0 && Schedule(s, SchedEndOfFile, now, err).Ran?
    ensures ActiveIsNext(Schedule(s, SchedEndOfFile, now, err).s)
            <==> if Finishes(s.mols[a]) then OneAtomLeft(s.mols - {a}) else |s.mols[a].atoms| > 1
  {
    NextIs(s.mols, a);
    EndedPlace(s.mols[a], now);
    var s1 := Settle(s, a, SchedEndOfFile, now);
    var c := Reposition(s1.mols[a], now).value;
    if c.IsActive() {
      FailsAt(s, a, SchedEndOfFile, now, err, c);
      StaysActive(s1, Schedule(s, SchedEndOfFile, now, err).s, a);
    } else {
      ApproachReady(s, a, SchedEndOfFile, now, c);
      var s2 := Remove(Put(s1, a, c), a, Finished);
      assert s2.mols == s.mols - {a};
      IdleFails(s2, SchedEndOfFile, now, err);
    }
  }

  /** The molecule whose atom failed is still the active one. */
  lemma StaysActive(s: State, s': State, a: nat)
    requires s'.active == Some(a) && IsNext(s.mols, a) && LosesAtom(s, s', a)
    ensures ActiveIsNext(s') <==> |s.mols[a].atoms| > 1
  {
    if |s.mols[a].atoms| > 1 {
      NextIs(s'.mols, a);
    }
  }

  // ---------- interrupts ----------

  /** The new molecule n fails and would have interrupted a, which stays active. */
  lemma InterruptFails(s: State, s': State, a: nat, n: nat)
    requires s'.active == Some(a) && a != n && IsNext(s.mols, n) && LosesAtom(s, s', n)
    requires IsNext(s.mols - {n}, a)
    ensures ActiveIsNext(s') <==> |s.mols[n].atoms| == 1
  {
    var rest := s.mols - {n};
    if |s.mols[n].atoms| == 1 {
      assert !s'.mols[n].Playable();
      forall j | j in s'.mols && s'.mols[j].Playable() && j != a ensures Before(s'.mols, a, j) {
        assert Before(rest, a, j);
      }
      NextIs(s'.mols, a);
    } else {
      assert Before(s.mols, n, a);
      assert s'.mols[n].Playable();
    }
  }

  /** The state after a new molecule n, enqueued above the active one, failed to start. */
  lemma AboveState(s: State, e: Event) returns (s2: State)
    requires Quiet(s) && e.Enqueue? && e.atoms != [] && e.err != 0 && e.priority <= MAX_PRIORITY
    requires s.active.Some? && s.mols[s.active.value].priority < e.priority
    ensures var s1, n := Prepare(s, e).s, |s.enq|;
            && s2 == Settle(s1, n, SchedInterrupt, e.now)
            && Step(s, e).Ran? && Step(s, e).s.active == s2.active
            && IsNext(s2.mols, n) && LosesAtom(s2, Step(s, e).s, n) && |s2.mols[n].atoms| == |e.atoms|
  {
    var n := |s.enq|;
    var s1 := Prepare(s, e).s;
    assert IsNext(s1.mols, n);
    s2 := Settle(s1, n, SchedInterrupt, e.now);
    FreshNeverTraps(s1, n, e.now, e.err);
    NextIs(s1.mols, n);
    RepositionFrame(Fresh(e), e.now);
    FailsAt(s1, n, SchedInterrupt, e.now, e.err, Reposition(Fresh(e), e.now).value);
    SettleNext(s1, n, SchedInterrupt, e.now);
  }

  /** The new molecule n fails and has interrupted a molecule that discards, so that nothing is active. */
  lemma DiscardingFails(s: State, s': State, n: nat)
    requires s'.active == None && IsNext(s.mols, n) && LosesAtom(s, s', n)
    ensures ActiveIsNext(s') <==> |s.mols[n].atoms| == 1 && Next(s.mols - {n}) == None
  {
    NextIs(s.mols, n);
    NothingLeft(s, s', n);
    OnlyOne(s.mols, n);
  }

  lemma AboveFails(s: State, e: Event)
    requires Quiet(s) && e.Enqueue? && e.atoms != [] && e.err != 0 && e.priority <= MAX_PRIORITY
    requires s.active.Some? && s.mols[s.active.value].priority < e.priority
    ensures Step(s, e).Ran?
    ensures ActiveIsNext(Step(s, e).s) <==>
              |e.atoms| == 1 &&
              (s.mols[s.active.value].mode.discard ==> Next(s.mols - {s.active.value}) == None)
  {
    var a, n := s.active.value, |s.enq|;
    var s2 := AboveState(s, e);
    InterruptionSettles(s, Prepare(s, e).s, n, e.now);
    if s.mols[a].mode.discard {
      DiscardingFails(s2, Step(s, e).s, n);
    } else {
      assert IsNext(s2.mols - {n}, a);
      InterruptFails(s2, Step(s, e).s, a, n);
    }
  }

  /** An empty molecule above the active one makes that start again, which fails. */
  lemma RestartFails(s: State, e: Event)
    requires Quiet(s) && e.Enqueue? && e.atoms == [] && e.err != 0 && e.priority <= MAX_PRIORITY
    requires s.active.Some? && s.mols[s.active.value].priority < e.priority && Step(s, e).Ran?
    ensures ActiveIsNext(Step(s, e).s) <==> |s.mols[s.active.value].atoms| > 1
  {
    var a := s.active.value;
    var s1 := Prepare(s, e).s;
    assert IsNext(s1.mols, a);
    NextIs(s1.mols, a);
    var s2 := Settle(s1, a, SchedInterrupt, e.now);
    var m := s2.mols[a];
    assert m.IsActive();
    RepositionFrame(m, e.now);
    FailsAt(s1, a, SchedInterrupt, e.now, e.err, Reposition(m, e.now).value);
    SettleNext(s1, a, SchedInterrupt, e.now);
    StaysActive(s2, Step(s, e).s, a);
  }

  // ---------- all events ----------

  /** The end of an atom of molecule a leaves the right molecule active although a start fails. */
  ghost predicate EndStaysRight(mols: map<nat, Mol>, a: nat)
    requires a in mols
  {
    if Finishes(mols[a]) then OneAtomLeft(mols - {a}) else |mols[a].atoms| > 1
  }

  /**
   The right molecule is active after event e although the start that e makes, if it makes one, fails.
   A start above the active molecule must have been the only atom there; a further atom of the active
   molecule must not have been its only one; and where nothing is active, nothing must be left to play.
   */
  ghost predicate StaysRight(s: State, e: Event)
    requires Wellformed(s)
  {
    match e
    case Enqueue(token, priority, mode, atoms, now, err) =>
      if priority > MAX_PRIORITY then true
      else if s.active.None? then |atoms| <= 1
      else
        var m := s.mols[s.active.value];
        if priority <= m.priority then true
        else if atoms == [] then |m.atoms| > 1
        else |atoms| == 1 && (m.mode.discard ==> Next(s.mols - {s.active.value}) == None)
    case EndOfFile(now, err) => s.active.Some? ==> EndStaysRight(s.mols, s.active.value)
    case DtmfBegin(now, err) =>
      s.active.Some? && DtmfStops(s.mols[s.active.value]) ==> EndStaysRight(s.mols, s.active.value)
    case DiscardToken(token, now, err) =>
      var victims := Victims(s.mols, token, 0);
      if ActiveOnTop(s, victims) then OneAtomLeft(s.mols - victims) else !Stalls(s, token)
    case DiscardRange(prioFrom, prioTo, now, err) =>
      prioFrom > MAX_PRIORITY || prioTo > MAX_PRIORITY || OneAtomLeft(s.mols - InRange(s.mols, prioFrom, prioTo))
  }

  lemma EnqueueFails(s: State, e: Event)
    requires Quiet(s) && e.Enqueue? && e.err != 0 && Step(s, e).Ran?
    ensures ActiveIsNext(Step(s, e).s) <==> StaysRight(s, e)
  {
    var prep := Prepare(s, e);
    if prep.Call? {
      if s.active.None? {
        IdleFails(prep.s, SchedInterrupt, e.now, e.err);
        OnlyNew(s, e);
      } else if e.atoms == [] {
        RestartFails(s, e);
      } else {
        AboveFails(s, e);
      }
    } else if prep.code == OK {
      NextIs(prep.s.mols, s.active.value);
    }
  }

  /** In an idle quiet queue, a new molecule is the only one that can be played. */
  lemma OnlyNew(s: State, e: Event)
    requires Quiet(s) && s.active == None && e.Enqueue? && 0 <= e.priority
    ensures OneAtomLeft(Push(s, Fresh(e)).mols) <==> |e.atoms| <= 1
  {
    var n, mols := |s.enq|, Push(s, Fresh(e)).mols;
    assert forall j :: j in mols && j != n ==> !mols[j].Playable();
    if e.atoms != [] {
      assert IsNext(mols, n);
      NextIs(mols, n);
    }
  }

  lemma AtomFails(s: State, e: Event)
    requires Quiet(s) && (e.EndOfFile? || e.DtmfBegin?) && e.err != 0 && Step(s, e).Ran?
    ensures ActiveIsNext(Step(s, e).s) <==> StaysRight(s, e)
  {
    var prep := Prepare(s, e);
    if prep.Call? {
      var a := s.active.value;
      assert IsNext(prep.s.mols, a);
      EndFails(prep.s, a, e.now, e.err);
      assert prep.s.mols - {a} == s.mols - {a};
    }
  }

  lemma DiscardFails(s: State, e: Event)
    requires Quiet(s) && (e.DiscardToken? || e.DiscardRange?) && e.err != 0 && Step(s, e).Ran?
    ensures ActiveIsNext(Step(s, e).s) <==> StaysRight(s, e)
  {
    PrepareReady(s, e);
    var prep := Prepare(s, e);
    if e.DiscardToken? {
      DiscardLevelsEffect(s, e.token, 0, DiscardNothing);
      if prep.Reply? {
        DiscardExact(s, Event.DiscardToken(e.token, e.now, 0));
      }
    }
    if prep.Call? {
      IdleFails(prep.s, prep.r, e.now, e.err);
    }
  }

  /** When the start it makes fails, an event leaves the right molecule active if and only if `StaysRight`. */
  lemma FailureExact(s: State, e: Event)
    requires Quiet(s) && e.err != 0 && Step(s, e).Ran?
    ensures ActiveIsNext(Step(s, e).s) <==> StaysRight(s, e)
  {
    match e
    case Enqueue(_, _, _, _, _, _) => EnqueueFails(s, e);
    case EndOfFile(_, _) => AtomFails(s, e);
    case DtmfBegin(_, _) => AtomFails(s, e);
    case DiscardToken(_, _, _) => DiscardFails(s, e);
    case DiscardRange(_, _, _, _) => DiscardFails(s, e);
  }

  // ---------- what plays after a failed start ----------

  /** Molecule k, which is next and not active, lost the atom under the cursor of c. */
  ghost predicate LostAtom(s: State, k: nat, c: Mol) {
    Wellformed(s) && s.active != Some(k) && IsNext(s.mols, k) && c.IsActive() && s.mols[k] == Broken(c)
  }

  /**
   A molecule that is no restarting, muted or paused loop goes on with the atom after the next one, or is
   done if there is none, though its next atom was never started. What is active until then, if anything,
   is settled as always.
   */
  lemma FailureSkips(s: State, k: nat, c: Mol, r: Reason, now: nat)
    requires LostAtom(s, k, c) && !c.mode.Immortal()
    ensures var o, s1 := Schedule(s, r, now, 0), Settle(s, k, r, now);
            if c.cur + 2 < |c.atoms|
            then o.Ran? && o.s.active == Some(k)
                 && o.s.log == s1.log + [Started(k, c.cur + 1, c.atoms[c.cur + 2].Offset())]
            else o == Schedule(Remove(s1, k, Finished), r, now, 0)
  {
    NextIs(s.mols, k);
    var s1 := Settle(s, k, r, now);
    assert s1.mols[k] == s.mols[k];
    RepositionFrame(s.mols[k], now);
    assert Put(s1, k, s1.mols[k]).mols == s1.mols;
  }

  /** A restarting, muted or paused loop starts where it is placed. */
  lemma FailedLoopGoesOn(s: State, k: nat, c: Mol, r: Reason, now: nat)
    requires LostAtom(s, k, c) && c.mode.Immortal() && Schedule(s, r, now, 0).Ran?
    ensures Schedule(s, r, now, 0).s.active == Some(k) && PlaysAgain(Broken(c), now, Schedule(s, r, now, 0).s, k)
  {
    NextIs(s.mols, k);
    assert Settle(s, k, r, now).mols[k] == s.mols[k];
    RepositionRevives(s.mols[k], now);
  }

  /** c, having lost the atom under its cursor, is placed in the atom after that. */
  predicate PlacedAtNext(c: Mol, now: nat)
    requires c.IsActive()
  {
    var b := Broken(c);
    Asked(b, now).Go? && Covers(b.atoms, Asked(b, now).pos, c.cur)
  }

  /** Molecule k plays its atom i. */
  ghost predicate PlaysAtom(s: State, k: nat, i: nat) {
    s.active == Some(k) && k in s.mols && s.mols[k].cur == i
  }

  /**
   After a failed start the molecule goes on with its next atom, which is now in the place of the failed
   one, if and only if it is a loop that is placed there.
   */
  lemma SkipExact(s: State, k: nat, c: Mol, r: Reason, now: nat)
    requires LostAtom(s, k, c) && Schedule(s, r, now, 0).Ran?
    ensures PlaysAtom(Schedule(s, r, now, 0).s, k, c.cur) <==> PlacedAtNext(c, now)
  {
    var b := Broken(c);
    if c.mode.Immortal() {
      FailedLoopGoesOn(s, k, c, r, now);
      PlacedCursor(b, now, c.cur);
    } else {
      FailureSkips(s, k, c, r, now);
      if c.cur + 2 >= |c.atoms| {
        NeverBack(Remove(Settle(s, k, r, now), k, Finished), r, now, k);
      } else {
        NextIs(s.mols, k);
        RepositionFrame(b, now);
      }
    }
  }

  /** A loop that is placed has its cursor at i exactly if it is placed there, or stays there. */
  lemma PlacedCursor(m: Mol, now: nat, i: nat)
    requires Reposition(m, now).Some?
    ensures Reposition(m, now).value.cur == i && i < |m.atoms|
            <==> i < |m.atoms| && if Asked(m, now).Go? then Covers(m.atoms, Asked(m, now).pos, i) else m.cur == i
  {
    AskedWithin(m, now);
    if Asked(m, now).Go? && i < |m.atoms| {
      CursorExact(m, Asked(m, now).pos, i);
    }
  }

  /**
   An end of file that finds the molecule whose start failed still active skips one more atom: it goes on
   with the third after the failed one.
   */
  lemma StaleSkips(s: State, k: nat, c: Mol, now: nat)
    requires Wellformed(s) && s.active == Some(k) && IsNext(s.mols, k) && c.IsActive() && s.mols[k] == Broken(c)
    requires !c.mode.Immortal()
    ensures var o := Schedule(s, SchedEndOfFile, now, 0);
            if c.cur + 3 < |c.atoms|
            then o.Ran? && o.s.active == Some(k)
                 && o.s.log == s.log + [Started(k, c.cur + 2, c.atoms[c.cur + 3].Offset())]
            else o == Schedule(Remove(Put(s, k, Broken(c).(cur := c.cur + 2, stopped := now)), k, Finished),
                               SchedEndOfFile, now, 0)
  {
    EndRound(s, k, now);
    RepositionFrame(AtStop(s.mols[k], SchedEndOfFile, now), now);
  }
}
