/**
 Preemption and time: what an interrupt does to the molecule it interrupts, that a molecule waits
 unchanged until it plays again, what one end of file does, and where looping molecules resume.
 */
module Preemption {

  import opened Options
  import opened Molecules
  import opened Scheduling
  import opened Playing
  import opened Progress

  /** The acts of an interruption: the interrupted molecule is reported if it discards, and molecule n starts. */
  function Interruption(a: nat, interrupted: Mol, n: nat, offset: nat): seq<Act> {
    (if interrupted.mode.discard then [Done(a, interrupted, Discarded)] else []) + [Started(n, 0, offset)]
  }

  /** Enqueueing above the active molecule plays at once; the interrupted one stays, or is reported once. */
  lemma Preempt(s: State, e: Event)
    requires Quiet(s) && s.active.Some? && e.Enqueue? && Audible(e)
    requires s.mols[s.active.value].priority < e.priority <= MAX_PRIORITY
    ensures Step(s, e).Ran?
    ensures var s' := Step(s, e).s;
            var a := s.active.value;
            var interrupted := s.mols[a].(stopped := e.now);
            var n := |s.enq|;
            && s'.active == Some(n) && s'.enq == s.enq + [Fresh(e)] && n in s'.mols
            && s'.mols[n].IsActive() && s'.mols[n].cur == 0 && s'.mols[n].started == e.now
            && s'.mols - {n} == (if interrupted.mode.discard then s.mols - {a} else s.mols[a := interrupted])
            && s'.log == s.log + Interruption(a, interrupted, n, s'.mols[n].atoms[0].Offset())
            && PlaysAgain(Fresh(e), e.now, s', n)
  {
    var n := |s.enq|;
    var a := s.active.value;
    var s1 := Prepare(s, e).s;
    assert IsNext(s1.mols, n);
    NextIs(s1.mols, n);
    var c := FreshStarts(e);
    InterruptionSettles(s, s1, n, e.now);
    var s2 := Settle(s1, n, SchedInterrupt, e.now);
    assert Step(s, e).s == Launch(Put(s2, n, c), n, c, e.now);
    assert Step(s, e).s.mols - {n} == s2.mols - {n};
  }

  /** A new molecule with atoms is placed at its first. */
  lemma FreshStarts(e: Event) returns (c: Mol)
    requires e.Enqueue? && e.priority >= 0 && e.atoms != []
    ensures Reposition(Fresh(e), e.now) == Some(c) && c.IsActive() && c.cur == 0
    ensures c.token == e.token && c.priority == e.priority && c.mode == e.mode
  {
    PositionLaw(Fresh(e), 0);
    RepositionFrame(Fresh(e), e.now);
    c := Reposition(Fresh(e), e.now).value;
  }

  /** What is settled when the new molecule n is next: s1 is s with its active molecule stopped and n queued. */
  lemma InterruptionSettles(s: State, s1: State, n: nat, now: nat)
    requires Wellformed(s) && s.active.Some? && n !in s.mols && n in s1.mols && s1.active == s.active
    requires s1.log == s.log && s1.mols - {n} == s.mols[s.active.value := s.mols[s.active.value].(stopped := now)]
    ensures var a := s.active.value;
            var m := s.mols[a].(stopped := now);
            var s2 := Settle(s1, n, SchedInterrupt, now);
            && s2.mols[n] == s1.mols[n] && s2.enq == s1.enq
            && s2.mols - {n} == (if m.mode.discard then s.mols - {a} else s.mols[a := m])
            && s2.log == s.log + if m.mode.discard then [Done(a, m, Discarded)] else []
  {
    var a := s.active.value;
    assert a in s1.mols - {n} && s1.mols[a] == (s1.mols - {n})[a];
    var s2 := Settle(s1, n, SchedInterrupt, now);
    if s.mols[a].mode.discard {
      assert s2.mols - {n} == (s1.mols - {n}) - {a};
      assert s2.mols - {n} == s.mols - {a};
    }
  }

  // ---------- waiting ----------

  /** Molecule k starts where it is placed, and nothing else of it changes but its start time in its first atom. */
  ghost predicate Resumes(s: State, s': State, k: nat, now: nat)
    requires k in s.mols
  {
    && k in s'.mols && Reposition(s.mols[k], now).Some?
    && var c := Reposition(s.mols[k], now).value;
       && c.IsActive() && s'.mols[k] == Begun(c, now)
       && s'.log != [] && s'.log[|s'.log| - 1] == Started(k, c.cur, c.atoms[c.cur].Offset())
  }

  /** What scheduling does to a queued molecule that is not active. */
  ghost predicate StandsBy(s: State, s': State, k: nat, now: nat)
    requires k in s.mols
  {
    && k in s'.mols
    && (s'.active != Some(k) ==> s'.mols[k] == s.mols[k])
    && (s'.active == Some(k) ==> Resumes(s, s', k, now))
  }

  lemma StandsByNext(s: State, r: Reason, now: nat, k: nat, c: Mol)
    requires Wellformed(s) && Ready(s) && IsNext(s.mols, k) && s.active != Some(k)
    requires Reposition(Settle(s, k, r, now).mols[k], now) == Some(c)
    ensures c.IsActive() && StandsBy(s, Launch(Put(Settle(s, k, r, now), k, c), k, c, now), k, now)
  {
    assert Settle(s, k, r, now).mols[k] == s.mols[k];
    RepositionFrame(s.mols[k], now);
  }

  /** A queued molecule that is not active stays as it is, or begins to play where it is placed. */
  lemma {:induction false} ScheduleBystander(s: State, r: Reason, now: nat, k: nat)
    requires Wellformed(s) && Ready(s) && k in s.mols && s.active != Some(k)
    requires Schedule(s, r, now, 0).Ran?
    ensures StandsBy(s, Schedule(s, r, now, 0).s, k, now)
    decreases |s.mols|
  {
    match Next(s.mols)
    case None =>
    case Some(j) =>
      var s1 := Settle(s, j, r, now);
      match Reposition(s1.mols[j], now)
      case None =>
      case Some(c) =>
        if j == k {
          StandsByNext(s, r, now, k, c);
        } else if !c.IsActive() {
          ApproachReady(s, j, r, now, c);
          FewerLeft(s, j, r, now, c);
          ScheduleBystander(Remove(Put(s1, j, c), j, Finished), r, now, k);
        }
  }

  /** The event discards molecule k. */
  ghost predicate Hits(s: State, e: Event, k: nat) {
    match e
    case DiscardToken(token, now, err) => k in Victims(s.mols, token, 0)
    case DiscardRange(prioFrom, prioTo, now, err) =>
      prioFrom <= MAX_PRIORITY && prioTo <= MAX_PRIORITY && k in InRange(s.mols, prioFrom, prioTo)
    case _ => false
  }

  lemma StepBystander(s: State, e: Event, k: nat)
    requires Wellformed(s) && Ready(s) && k in s.mols && s.active != Some(k)
    requires e.err == 0 && !Hits(s, e, k) && Step(s, e).Ran?
    ensures StandsBy(s, Step(s, e).s, k, e.now)
  {
    PrepareReady(s, e);
    if e.DiscardToken? {
      DiscardLevelsState(s, e.token, 0, DiscardNothing);
    }
    var prep := Prepare(s, e);
    assert k in prep.s.mols && prep.s.mols[k] == s.mols[k] && prep.s.active != Some(k);
    if prep.Call? {
      ScheduleBystander(prep.s, prep.r, e.now, k);
    }
  }

  /** In none of the events does molecule k play, nor is it discarded, and all starts succeed. */
  ghost predicate Waits(s: State, es: seq<Event>, k: nat)
    requires Wellformed(s)
    decreases |es|
  {
    es != [] ==>
      && es[0].err == 0 && !Hits(s, es[0], k) && Step(s, es[0]).Ran?
      && Step(s, es[0]).s.active != Some(k) && Waits(Step(s, es[0]).s, es[1..], k)
  }

  lemma {:induction false} WaitingUnchanged(s: State, es: seq<Event>, k: nat)
    requires Wellformed(s) && Ready(s) && k in s.mols && s.active != Some(k) && Waits(s, es, k)
    ensures Run(s, es).Ran?
    ensures var s' := Run(s, es).s;
            Ready(s') && s'.active != Some(k) && k in s'.mols && s'.mols[k] == s.mols[k]
    decreases |es|
  {
    if es != [] {
      StepBystander(s, es[0], k);
      PrepareReady(s, es[0]);
      if Prepare(s, es[0]).Call? {
        ScheduleQuiet(Prepare(s, es[0]).s, Prepare(s, es[0]).r, es[0].now);
      }
      WaitingUnchanged(Step(s, es[0]).s, es[1..], k);
    }
  }

  /**
   Event `up` interrupts the active molecule a, which does not discard; it waits through any events
   `es`, and is active again after `back`, in state s'.
   */
  ghost predicate Interlude(s: State, a: nat, up: Event, es: seq<Event>, back: Event, s': State) {
    && Quiet(s) && s.active == Some(a) && up.Enqueue? && Audible(up)
    && s.mols[a].priority < up.priority <= MAX_PRIORITY && !s.mols[a].mode.discard
    && Step(s, up).Ran? && Waits(Step(s, up).s, es, a) && Run(Step(s, up).s, es).Ran?
    && var s1 := Run(Step(s, up).s, es).s;
       && back.err == 0 && !Hits(s1, back, a)
       && Step(s1, back).Ran? && Step(s1, back).s == s' && s'.active == Some(a)
  }

  /** In state s', molecule a plays again from where m is placed. */
  ghost predicate PlaysAgain(m: Mol, now: nat, s': State, a: nat) {
    var c := Reposition(m, now);
    && c.Some? && c.value.IsActive() && a in s'.mols && s'.mols[a] == Begun(c.value, now)
    && s'.log != [] && s'.log[|s'.log| - 1] == Started(a, c.value.cur, c.value.atoms[c.value.cur].Offset())
  }

  /** An interrupted molecule waits unchanged but for its stop time, and is placed by that when it plays again. */
  lemma PreemptedReturns(s: State, a: nat, up: Event, es: seq<Event>, back: Event, s': State)
    requires Interlude(s, a, up, es, back, s')
    ensures a in s.mols && s.mols[a].IsActive() && PlaysAgain(s.mols[a].(stopped := up.now), back.now, s', a)
  {
    Preempt(s, up);
    EnqueueQuiet(s, up);
    var s0 := Step(s, up).s;
    assert a in s0.mols && s0.mols[a] == s.mols[a].(stopped := up.now) by {
      assert a in s.mols[a := s.mols[a].(stopped := up.now)];
    }
    WaitingUnchanged(s0, es, a);
    StepBystander(Run(s0, es).s, back, a);
  }

  /**
   An interrupted molecule that is no restarting, muted or paused loop starts the atom again that it was
   interrupted in, at the offset at which that was last started, however far it had played; nothing
   else of it has changed but times.
   */
  lemma PreemptedResumes(s: State, a: nat, up: Event, es: seq<Event>, back: Event, s': State)
    requires Interlude(s, a, up, es, back, s') && a in s.mols && !s.mols[a].mode.Immortal()
    ensures var m := s.mols[a];
            && m.IsActive() && a in s'.mols && s'.mols[a] == Begun(m.(stopped := up.now), back.now)
            && s'.log != [] && s'.log[|s'.log| - 1] == Started(a, m.cur, m.atoms[m.cur].Offset())
  {
    PreemptedReturns(s, a, up, es, back, s');
  }

  // ---------- end of file ----------

  /** The state after the active molecule, which is no loop that is placed again, has ended its atom. */
  ghost function AfterAtom(s: State, a: nat, now: nat): (State, bool)
    requires a in s.mols
  {
    var m := s.mols[a].(cur := s.mols[a].cur + 1, stopped := now);
    if m.IsActive() then (State(s.enq, s.mols[a := m], Some(a), s.log), true)
    else (State(s.enq, s.mols - {a}, None, s.log + [Done(a, m, Finished)]), false)
  }

  /** s' is s with its next molecule, if there is one, started where it is placed and nothing else moved. */
  ghost predicate PlaysNext(s: State, s': State, now: nat) {
    && s'.enq == s.enq && s'.active == Next(s.mols) && s'.mols.Keys == s.mols.Keys
    && (s'.active == None ==> s' == s)
    && (forall k :: k in s.mols && s'.active != Some(k) ==> s'.mols[k] == s.mols[k])
    && (forall k :: s'.active == Some(k) && k in s.mols ==>
          var m, m' := s.mols[k], s'.mols[k];
          && Reposition(m, now).Some? && m' == Begun(Reposition(m, now).value, now)
          && m'.IsActive() && s'.log == s.log + [Started(k, m'.cur, m'.atoms[m'.cur].Offset())])
  }

  /** Scheduling with nothing active and every molecule ready starts the next one, and only that. */
  lemma ScheduleFromIdle(s: State, r: Reason, now: nat)
    requires Wellformed(s) && Ready(s) && s.active == None && Schedule(s, r, now, 0).Ran?
    ensures PlaysNext(s, Schedule(s, r, now, 0).s, now)
  {
    match Next(s.mols)
    case None =>
    case Some(k) =>
      RepositionFrame(s.mols[k], now);
  }

  /**
   One end of file moves the active molecule on by one atom and starts that, or reports the molecule
   if there is none and starts the next one where that is placed; it removes and moves no other
   molecule.
   */
  lemma EndOfFileLaw(s: State, e: Event)
    requires Quiet(s) && e.EndOfFile? && e.err == 0 && Step(s, e).Ran?
    requires s.active.Some? && !s.mols[s.active.value].mode.Immortal()
    ensures var s' := Step(s, e).s;
            var a := s.active.value;
            var (s1, more) := AfterAtom(s, a, e.now);
            if more
            then s' == s1.(log := s1.log + [Started(a, s1.mols[a].cur, s1.mols[a].atoms[s1.mols[a].cur].Offset())])
            else PlaysNext(s1, s', e.now)
  {
    var a := s.active.value;
    var s0 := Stopped(s, a, e.now);
    NextIs(s0.mols, a);
    var s1 := Settle(s0, a, SchedEndOfFile, e.now);
    var (s2, more) := AfterAtom(s, a, e.now);
    var c := s1.mols[a];
    assert Reposition(c, e.now) == Some(c);
    if more {
      assert c.cur > 0;
      assert Step(s, e).s.mols == s2.mols;
    } else {
      assert Put(s1, a, c).mols - {a} == s2.mols;
      assert Remove(Put(s1, a, c), a, Finished) == s2;
      ScheduleFromIdle(s2, SchedEndOfFile, e.now);
    }
  }

  /** One end of file removes no molecule but the active one, and moves no other that it does not start. */
  lemma OneEndOfFile(s: State, e: Event, k: nat)
    requires Quiet(s) && e.EndOfFile? && e.err == 0 && Step(s, e).Ran?
    requires k in s.mols && s.active != Some(k)
    ensures StandsBy(s, Step(s, e).s, k, e.now)
  {
    StepBystander(s, e, k);
  }

  lemma SettleLog(s: State, k: nat, r: Reason, now: nat)
    requires Wellformed(s) && k in s.mols
    ensures var s1 := Settle(s, k, r, now);
            || s1.log == s.log
            || (s.active.Some? && s1.log == s.log + [Done(s.active.value, s.mols[s.active.value], Discarded)])
  {
  }

  /** Unless an atom has ended, the first round of scheduling starts the next molecule. */
  lemma FirstRound(s: State, k: nat, r: Reason, now: nat) returns (c: Mol)
    requires Wellformed(s) && Ready(s) && IsNext(s.mols, k)
    requires r != SchedEndOfFile && Schedule(s, r, now, 0).Ran?
    ensures c.IsActive() && Schedule(s, r, now, 0).s == Launch(Put(Settle(s, k, r, now), k, c), k, c, now)
  {
    NextIs(s.mols, k);
    var m := Settle(s, k, r, now).mols[k];
    assert m.IsActive();
    RepositionFrame(m, now);
    c := Reposition(m, now).value;
  }

  /** Unless an atom has ended, scheduling reports only what it interrupts. */
  lemma NothingFinishes(s: State, r: Reason, now: nat)
    requires Wellformed(s) && Ready(s) && r != SchedEndOfFile && Schedule(s, r, now, 0).Ran?
    ensures var log, log' := s.log, Schedule(s, r, now, 0).s.log;
            && |log| <= |log'| && log'[..|log|] == log
            && forall i :: |log| <= i < |log'| && log'[i].Done? ==>
                 s.active == Some(log'[i].key) && log'[i].cause == Discarded
  {
    if Next(s.mols).Some? {
      var k := Next(s.mols).value;
      SettleLog(s, k, r, now);
      var c := FirstRound(s, k, r, now);
    }
  }

  // ---------- who is reported ----------

  /** The history grows, and reports nobody but molecule a. */
  ghost predicate ReportsOnly(log: seq<Act>, log': seq<Act>, a: Option<nat>) {
    && |log| <= |log'| && log'[..|log|] == log
    && forall i :: |log| <= i < |log'| && log'[i].Done? ==> a == Some(log'[i].key)
  }

  lemma ReportsOne(log: seq<Act>, act: Act, a: Option<nat>)
    requires act.Done? ==> a == Some(act.key)
    ensures ReportsOnly(log, log + [act], a)
  {
  }

  lemma ReportsThen(log: seq<Act>, log1: seq<Act>, log2: seq<Act>, a: Option<nat>, a1: Option<nat>)
    requires ReportsOnly(log, log1, a) && ReportsOnly(log1, log2, a1) && (a1 == None || a1 == a)
    ensures ReportsOnly(log, log2, a)
  {
    assert log2[..|log|] == log2[..|log1|][..|log|];
    assert forall i :: |log| <= i < |log1| ==> log2[i] == log2[..|log1|][i];
  }

  /** With nothing active and every molecule ready, scheduling reports nobody. */
  lemma IdleReports(s: State, r: Reason, now: nat)
    requires Wellformed(s) && Ready(s) && s.active == None && Schedule(s, r, now, 0).Ran?
    ensures ReportsOnly(s.log, Schedule(s, r, now, 0).s.log, None)
  {
    ScheduleFromIdle(s, r, now);
  }

  lemma AtomEnds(s: State, a: nat, now: nat)
    requires Wellformed(s) && Ready(s) && s.active == Some(a) && IsNext(s.mols, a)
    requires Schedule(s, SchedEndOfFile, now, 0).Ran?
    ensures ReportsOnly(s.log, Schedule(s, SchedEndOfFile, now, 0).s.log, Some(a))
  {
    NextIs(s.mols, a);
    var s1 := Settle(s, a, SchedEndOfFile, now);
    var c := Reposition(s1.mols[a], now).value;
    if c.IsActive() {
      ReportsOne(s.log, Started(a, c.cur, c.atoms[c.cur].Offset()), Some(a));
    } else {
      ApproachReady(s, a, SchedEndOfFile, now, c);
      var s2 := Remove(Put(s1, a, c), a, Finished);
      ReportsOne(s.log, Done(a, c, Finished), Some(a));
      IdleReports(s2, SchedEndOfFile, now);
      ReportsThen(s.log, s2.log, Schedule(s2, SchedEndOfFile, now, 0).s.log, Some(a), None);
    }
  }

  lemma {:induction false} DiscardReports(s: State, token: string, p: nat, res: DiscardResult)
    requires Wellformed(s) && p <= MAX_PRIORITY + 1
    ensures ReportsOnly(s.log, DiscardLevels(s, token, p, res).0.log, s.active)
    decreases MAX_PRIORITY + 1 - p
  {
    if p <= MAX_PRIORITY {
      match Victim(s.mols, p, token)
      case None => DiscardReports(s, token, p + 1, res);
      case Some(k) =>
        var s1 := Discard(s, k).0;
        DiscardReports(s1, token, p + 1, Discard(s, k).1);
        ReportsOne(s.log, s1.log[|s.log|], s.active);
        ReportsThen(s.log, s1.log, DiscardLevels(s1, token, p + 1, Discard(s, k).1).0.log, s.active, s1.active);
    }
  }

  lemma PrepareReports(s: State, e: Event)
    requires Wellformed(s)
    ensures ReportsOnly(s.log, Prepare(s, e).s.log, s.active)
    ensures Prepare(s, e).s.active == None || Prepare(s, e).s.active == s.active
  {
    if e.DiscardToken? {
      DiscardReports(s, e.token, 0, DiscardNothing);
      DiscardLevelsState(s, e.token, 0, DiscardNothing);
    }
  }

  lemma ScheduleReports(s: State, r: Reason, now: nat)
    requires Wellformed(s) && Ready(s) && Schedule(s, r, now, 0).Ran?
    requires r == SchedEndOfFile ==> s.active.Some? && IsNext(s.mols, s.active.value)
    ensures ReportsOnly(s.log, Schedule(s, r, now, 0).s.log, s.active)
  {
    if r == SchedEndOfFile {
      AtomEnds(s, s.active.value, now);
    } else {
      NothingFinishes(s, r, now);
    }
  }

  lemma EndOfFilePrepared(s: State, e: Event)
    requires Quiet(s) && Prepare(s, e).Call? && Prepare(s, e).r == SchedEndOfFile
    ensures var s1 := Prepare(s, e).s;
            s1.active.Some? && IsNext(s1.mols, s1.active.value)
  {
  }

  /** From a quiet state, an event reports no molecule but the one that was active before it. */
  lemma OnlyActiveReported(s: State, e: Event)
    requires Quiet(s) && e.err == 0 && Step(s, e).Ran?
    ensures ReportsOnly(s.log, Step(s, e).s.log, s.active)
  {
    PrepareReports(s, e);
    var prep := Prepare(s, e);
    if prep.Call? {
      PrepareReady(s, e);
      if prep.r == SchedEndOfFile {
        EndOfFilePrepared(s, e);
      }
      ScheduleReports(prep.s, prep.r, e.now);
      ReportsThen(s.log, prep.s.log, Schedule(prep.s, prep.r, e.now, 0).s.log, s.active, prep.s.active);
    }
  }

  // ---------- where looping molecules resume ----------

  /** A looping molecule that restarts, or has not stopped yet, begins at its first atom. */
  lemma BeginsAgain(m: Mol, now: nat)
    requires m.mode.loop && m.Playable()
    requires if m.mode.restart && !m.IsActive() then true
             else if m.mode.mute then m.started == 0
             else m.mode.pause && (!m.IsActive() || m.stopped == 0)
    ensures Reposition(m, now).Some?
    ensures var c := Reposition(m, now).value;
            c.cur == 0 && c.IsActive() && Position(c) == 0 && c.atoms[1..] == m.atoms[1..]
  {
    PositionLaw(m, 0);
    PrefixMonotone(m.atoms, 0, 1);
    assert Prefix(m.atoms, 0) == 0 && Reach(m.atoms, 0, 0) == 0;
  }

  /** Molecule k loops and is not sent back to its beginning by this call of schedule. */
  ghost predicate KeepsTime(s: State, r: Reason, k: nat)
    requires k in s.mols
  {
    && s.mols[k].mode.loop
    && (s.mols[k].mode.restart ==>
          if r == SchedEndOfFile && s.active == Some(k) then s.mols[k].cur + 1 < |s.mols[k].atoms|
          else s.mols[k].IsActive())
  }

  /** m, whose atoms have the lengths of `atoms`, is where a loop is that plays for `elapsed` ms. */
  predicate PlacedAt(m: Mol, atoms: seq<Atom>, elapsed: nat) {
    m.IsActive() && Total(atoms) > 0 && Position(m) == elapsed % Total(atoms)
  }

  /** The clock decides where a muted looping molecule is put. */
  lemma MutedPlace(m: Mol, now: nat)
    requires Reposition(m, now).Some? && m.mode.loop && m.Playable() && (m.mode.restart ==> m.IsActive())
    requires m.mode.mute && 0 < m.started <= now < WORD
    ensures PlacedAt(Reposition(m, now).value, m.atoms, now - m.started)
  {
    assert Minus(now, m.started) == now - m.started;
    var pos := (now - m.started) % Total(m.atoms);
    assert Reposition(m, now).value == Positioned(m, pos);
    PositionLaw(m, pos);
  }

  /**
   A paused looping molecule is placed by the time from its start to its stop, modulo its length; if
   its stop is before its start, the unsigned difference has wrapped around. When that is where it
   stopped is the subject of `Phase`.
   */
  lemma PausedPlace(m: Mol, now: nat)
    requires Reposition(m, now).Some? && m.mode.loop && m.IsActive()
    requires m.mode.pause && !m.mode.mute && 0 < m.stopped < WORD && m.started < WORD
    ensures var c := Reposition(m, now).value;
            && Total(m.atoms) > 0 && c.IsActive()
            && Position(c) == (if m.started <= m.stopped then m.stopped - m.started
                               else WORD - (m.started - m.stopped)) % Total(m.atoms)
  {
    var apart := if m.started <= m.stopped then m.stopped - m.started else WORD - (m.started - m.stopped);
    assert Minus(m.stopped, m.started) == apart;
    var pos := apart % Total(m.atoms);
    assert Reposition(m, now).value == Positioned(m, pos);
    PositionLaw(m, pos);
  }

  lemma MutedRound(s: State, r: Reason, now: nat, k: nat)
    requires Wellformed(s) && IsNext(s.mols, k) && KeepsTime(s, r, k)
    requires s.mols[k].mode.mute && 0 < s.mols[k].started <= now < WORD
    ensures var s1 := Settle(s, k, r, now);
            var c := Reposition(s1.mols[k], now);
            c.Some? ==> c.value.IsActive() && PlacedAt(c.value, s.mols[k].atoms, now - s.mols[k].started)
  {
    SettleNext(s, k, r, now);
    var m := Settle(s, k, r, now).mols[k];
    PrefixSame(s.mols[k].atoms, m.atoms, |m.atoms|);
    if Reposition(m, now).Some? {
      assert m.mode.restart ==> m.IsActive();
      MutedPlace(m, now);
    }
  }

  /**
   The position of a muted looping molecule that comes back is the time since its start time, modulo
   its length. When that is where it would be had it played on is the subject of `Phase`.
   */
  lemma {:induction false} MutedPosition(s: State, r: Reason, now: nat, k: nat)
    requires Wellformed(s) && k in s.mols && Schedule(s, r, now, 0).Ran?
    requires KeepsTime(s, r, k) && s.mols[k].mode.mute && 0 < s.mols[k].started <= now < WORD
    ensures var s' := Schedule(s, r, now, 0).s;
            s'.active == Some(k) ==>
              k in s'.mols && PlacedAt(s'.mols[k], s.mols[k].atoms, now - s.mols[k].started)
    decreases |s.mols|, 1
  {
    match Next(s.mols)
    case None =>
    case Some(j) =>
      var s1 := Settle(s, j, r, now);
      if j == k {
        MutedRound(s, r, now, k);
        var c := Reposition(s1.mols[k], now).value;
        assert Schedule(s, r, now, 0).s == Launch(Put(s1, k, c), k, c, now);
      } else {
        SettleNext(s, j, r, now);
        var c := Reposition(s1.mols[j], now).value;
        if !c.IsActive() {
          FewerLeft(s, j, r, now, c);
          MutedLater(s, Remove(Put(s1, j, c), j, Finished), r, now, k);
        }
      }
  }

  /** The induction step of `MutedPosition`: a molecule other than k was in front and has finished. */
  lemma {:induction false} MutedLater(s: State, s2: State, r: Reason, now: nat, k: nat)
    requires Wellformed(s2) && k in s.mols && Schedule(s2, r, now, 0).Ran? && |s2.mols| < |s.mols|
    requires k in s2.mols ==> s2.mols[k] == s.mols[k]
    requires s2.active == None && KeepsTime(s, r, k)
    requires s.mols[k].mode.mute && 0 < s.mols[k].started <= now < WORD
    ensures var s' := Schedule(s2, r, now, 0).s;
            s'.active == Some(k) ==>
              k in s'.mols && PlacedAt(s'.mols[k], s.mols[k].atoms, now - s.mols[k].started)
    decreases |s.mols|, 0
  {
    if k in s2.mols {
      MutedPosition(s2, r, now, k);
    } else {
      NeverBack(s2, r, now, k);
    }
  }

  /** Scheduling never activates a molecule that is not queued. */
  lemma {:induction false} NeverBack(s: State, r: Reason, now: nat, k: nat)
    requires Wellformed(s) && k !in s.mols && Schedule(s, r, now, 0).Ran?
    ensures Schedule(s, r, now, 0).s.active != Some(k)
    decreases |s.mols|
  {
    match Next(s.mols)
    case None =>
    case Some(j) =>
      SettleNext(s, j, r, now);
      var s1 := Settle(s, j, r, now);
      match Reposition(s1.mols[j], now)
      case None =>
      case Some(c) =>
        if !c.IsActive() {
          FewerLeft(s, j, r, now, c);
          NeverBack(Remove(Put(s1, j, c), j, Finished), r, now, k);
        }
  }
}
