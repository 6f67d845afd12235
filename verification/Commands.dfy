/**
 What each command does to a quiet queue: what it removes and answers, and what it leaves alone.
 */
module Commands {

  import opened Options
  import opened Molecules
  import opened Scheduling
  import opened Playing
  import opened Progress
  import opened Preemption

  // ---------- enqueue ----------

  /** Enqueueing leaves what plays alone, and starts nothing, exactly if it is not above the active molecule. */
  lemma EnqueueBehind(s: State, e: Event)
    requires Quiet(s) && e.Enqueue? && s.active.Some? && Step(s, e).Ran?
    ensures Step(s, e).s.log == s.log
            <==> e.priority > MAX_PRIORITY || e.priority <= s.mols[s.active.value].priority
    ensures Step(s, e).s.log == s.log ==>
              Step(s, e).s.active == s.active && Step(s, e).s.mols - {|s.enq|} == s.mols
  {
    var prep := Prepare(s, e);
    if prep.Call? {
      var k := if e.atoms == [] then s.active.value else |s.enq|;
      assert IsNext(prep.s.mols, k);
      NextIs(prep.s.mols, k);
      var m := Settle(prep.s, k, prep.r, e.now).mols[k];
      assert m.IsActive() && |Settle(prep.s, k, prep.r, e.now).log| >= |s.log|;
      RepositionFrame(m, e.now);
    }
  }

  /** In a queue where nothing plays, a new molecule with atoms plays from its first one. */
  lemma EnqueueIdle(s: State, e: Event)
    requires Quiet(s) && s.active == None && e.Enqueue? && Audible(e) && 0 <= e.priority <= MAX_PRIORITY
    ensures Step(s, e).Ran?
    ensures var s', n := Step(s, e).s, |s.enq|;
            && s'.active == Some(n) && n in s'.mols && s'.mols - {n} == s.mols
            && s'.mols[n].IsActive() && s'.mols[n].cur == 0 && s'.mols[n].started == e.now
            && s'.log == s.log + [Started(n, 0, s'.mols[n].atoms[0].Offset())]
            && PlaysAgain(Fresh(e), e.now, s', n)
  {
    var n := |s.enq|;
    var s1 := Push(s, Fresh(e));
    assert IsNext(s1.mols, n);
    NextIs(s1.mols, n);
    PositionLaw(Fresh(e), 0);
    RepositionFrame(Fresh(e), e.now);
    assert Settle(s1, n, SchedInterrupt, e.now) == s1;
    var c := Reposition(Fresh(e), e.now).value;
    assert Step(s, e).s == Launch(Put(s1, n, c), n, c, e.now);
    assert Step(s, e).s.mols - {n} == s.mols;
  }

  /** Event e enqueues an empty molecule above the active one, which is a, and leaves state s'. */
  ghost predicate Nudges(s: State, e: Event, a: nat, s': State) {
    && Quiet(s) && s.active == Some(a) && e.Enqueue? && e.atoms == [] && e.err == 0
    && s.mols[a].priority < e.priority <= MAX_PRIORITY && Step(s, e).Ran? && Step(s, e).s == s'
  }

  /** In state s', molecule a, which was m, has been interrupted and started again at once. */
  ghost predicate Restarted(m: Mol, now: nat, s': State, a: nat) {
    var stop := AtStop(m.(stopped := now), SchedInterrupt, now);
    m.IsActive() && stop.IsActive() && s'.active == Some(a) && PlaysAgain(stop, now, s', a)
  }

  lemma EmptyRestarts(s: State, e: Event, a: nat, s': State)
    requires Nudges(s, e, a, s')
    ensures a in s.mols && Restarted(s.mols[a], e.now, s', a)
    ensures s'.mols.Keys == s.mols.Keys + {|s.enq|} && |s'.log| == |s.log| + 1 && s'.log[..|s.log|] == s.log
  {
    var s1 := Prepare(s, e).s;
    assert IsNext(s1.mols, a);
    NextIs(s1.mols, a);
    var stop := AtStop(s1.mols[a], SchedInterrupt, e.now);
    assert Settle(s1, a, SchedInterrupt, e.now).mols[a] == stop && stop.IsActive();
    RepositionFrame(stop, e.now);
  }

  /** m' is m at the time since its start time; if that is past its end, where its atom was last started. */
  predicate AtItsTime(m: Mol, now: nat, m': Mol) {
    && m.IsActive() && m'.IsActive() && m'.stopped == now && m.started <= now
    && Position(m') == if now - m.started <= Total(m.atoms) then now - m.started else Position(m)
  }

  /** m' is the loop m at the time since its start time, modulo its length. */
  predicate AtItsTurn(m: Mol, now: nat, m': Mol) {
    m.started <= now && PlacedAt(m', m.atoms, now - m.started)
  }

  lemma RestartedAtTime(m: Mol, now: nat, s': State, a: nat)
    requires Restarted(m, now, s', a) && !m.mode.Cyclic() && m.started <= now < WORD
    ensures AtItsTime(m, now, s'.mols[a])
  {
    assert Minus(now, m.started) == now - m.started;
    PositionLaw(m.(stopped := now), now - m.started);
    RepositionFrame(AtStop(m.(stopped := now), SchedInterrupt, now), now);
  }

  lemma RestartedInLoop(m: Mol, now: nat, s': State, a: nat)
    requires Restarted(m, now, s', a) && m.mode.Cyclic() && 0 < m.started <= now < WORD
    ensures AtItsTurn(m, now, s'.mols[a])
  {
    var stop := AtStop(m.(stopped := now), SchedInterrupt, now);
    ClockPlace(stop, now, Reposition(stop, now).value, m.atoms);
  }

  /**
   An empty molecule above the active one puts that at the time since its start time; if that is past
   its end, its atom starts again at the offset it was last started at.
   */
  lemma EmptyRepositions(s: State, e: Event, a: nat, s': State)
    requires Nudges(s, e, a, s') && a in s.mols
    requires !s.mols[a].mode.Cyclic() && s.mols[a].started <= e.now < WORD
    ensures s'.active == Some(a) && a in s'.mols && AtItsTime(s.mols[a], e.now, s'.mols[a])
  {
    EmptyRestarts(s, e, a, s');
    RestartedAtTime(s.mols[a], e.now, s', a);
  }

  /** A loop by the clock is put at the time since its start time, modulo its length. */
  lemma EmptyRepositionsLoop(s: State, e: Event, a: nat, s': State)
    requires Nudges(s, e, a, s') && a in s.mols
    requires s.mols[a].mode.Cyclic() && 0 < s.mols[a].started <= e.now < WORD
    ensures s'.active == Some(a) && a in s'.mols && AtItsTurn(s.mols[a], e.now, s'.mols[a])
  {
    EmptyRestarts(s, e, a, s');
    RestartedInLoop(s.mols[a], e.now, s', a);
  }

  lemma ClockPlace(m: Mol, now: nat, c: Mol, atoms: seq<Atom>)
    requires m.mode.Cyclic() && m.IsActive() && SameAtoms(atoms, m.atoms)
    requires 0 < m.started <= now < WORD && m.stopped == now && Reposition(m, now) == Some(c)
    ensures PlacedAt(Begun(c, now), atoms, now - m.started)
  {
    assert Minus(now, m.started) == now - m.started;
    PrefixSame(atoms, m.atoms, |atoms|);
    var pos := (now - m.started) % Total(m.atoms);
    assert c == Positioned(m, pos);
    PositionLaw(m, pos);
  }

  // ---------- discarding ----------

  /** Scheduling with nothing active removes no molecule. */
  lemma IdleKeeps(s: State, r: Reason, now: nat)
    requires Wellformed(s) && Ready(s) && s.active == None && Schedule(s, r, now, 0).Ran?
    ensures Schedule(s, r, now, 0).s.mols.Keys == s.mols.Keys
  {
    ScheduleFromIdle(s, r, now);
  }

  /** Molecule k has the token, and none enqueued before it at its priority has. */
  predicate OldestWith(mols: map<nat, Mol>, token: string, k: nat)
    requires k in mols
  {
    && mols[k].token == token
    && forall j :: j in mols && mols[j].token == token && mols[j].priority == mols[k].priority ==> k <= j
  }

  lemma VictimsExact(mols: map<nat, Mol>, token: string, k: nat)
    requires k in mols
    ensures k in Victims(mols, token, 0) <==> OldestWith(mols, token, k)
  {
    assert forall j :: HasToken(mols, mols[k].priority, token, j)
                       <==> j in mols && mols[j].token == token && mols[j].priority == mols[k].priority;
  }

  /**
   The discard command removes exactly the oldest molecule with the token at each priority, and answers
   that there is none exactly when no queued molecule has the token.
   */
  lemma DiscardLaw(s: State, e: Event)
    requires Quiet(s) && e.DiscardToken? && e.err == 0 && Step(s, e).Ran?
    ensures Step(s, e).s.mols.Keys == s.mols.Keys - Victims(s.mols, e.token, 0)
    ensures forall k :: k in Step(s, e).s.mols <==> k in s.mols && !OldestWith(s.mols, e.token, k)
    ensures Step(s, e).code == ENOENT <==> forall k :: k in s.mols ==> s.mols[k].token != e.token
  {
    DiscardLevelsEffect(s, e.token, 0, DiscardNothing);
    PrepareReady(s, e);
    var prep := Prepare(s, e);
    if prep.Call? {
      IdleKeeps(prep.s, prep.r, e.now);
    }
    SomeVictim(s, e.token);
    forall k | k in s.mols ensures k in Victims(s.mols, e.token, 0) <==> OldestWith(s.mols, e.token, k) {
      VictimsExact(s.mols, e.token, k);
    }
  }

  /** From index `from` on, the history reports that m, of key a, was discarded. */
  ghost predicate Reported(log': seq<Act>, from: nat, a: nat, m: Mol) {
    exists i :: from <= i < |log'| && log'[i] == Done(a, m, Discarded)
  }

  lemma {:induction false} LevelsReportActive(s: State, token: string, p: nat, res: DiscardResult, a: nat)
    requires Wellformed(s) && p <= MAX_PRIORITY + 1
    requires s.active == Some(a) && a in Victims(s.mols, token, p)
    ensures Reported(DiscardLevels(s, token, p, res).0.log, |s.log|, a, s.mols[a])
    decreases MAX_PRIORITY + 1 - p
  {
    match Victim(s.mols, p, token)
    case None =>
      VictimsNone(s.mols, token, p);
      LevelsReportActive(s, token, p + 1, res, a);
    case Some(k) =>
      VictimsOne(s, token, p, k);
      var (s1, res1) := Discard(s, k);
      if k == a {
        DiscardReports(s1, token, p + 1, res1);
        var log' := DiscardLevels(s1, token, p + 1, res1).0.log;
        assert log'[|s.log|] == log'[..|s1.log|][|s.log|];
      } else {
        LevelsReportActive(s1, token, p + 1, res1, a);
      }
  }

  /** The active molecule is reported when the discard command removes it. */
  lemma DiscardedIsReported(s: State, e: Event)
    requires Quiet(s) && e.DiscardToken? && e.err == 0 && Step(s, e).Ran?
    requires s.active.Some? && s.active.value in Victims(s.mols, e.token, 0)
    ensures Reported(Step(s, e).s.log, |s.log|, s.active.value, s.mols[s.active.value])
  {
    var a := s.active.value;
    LevelsReportActive(s, e.token, 0, DiscardNothing, a);
    DiscardLevelsState(s, e.token, 0, DiscardNothing);
    PrepareReady(s, e);
    var prep := Prepare(s, e);
    if prep.Call? {
      IdleReports(prep.s, prep.r, e.now);
      var log' := Schedule(prep.s, prep.r, e.now, 0).s.log;
      var i :| |s.log| <= i < |prep.s.log| && prep.s.log[i] == Done(a, s.mols[a], Discarded);
      assert log'[i] == log'[..|prep.s.log|][i];
    }
  }

  lemma SomeVictim(s: State, token: string)
    requires Wellformed(s)
    ensures Victims(s.mols, token, 0) == {} <==> forall k :: k in s.mols ==> s.mols[k].token != token
  {
    if k :| k in s.mols && s.mols[k].token == token {
      VictimExists(s.mols, s.mols[k].priority, token, k);
      var v :| IsVictim(s.mols, s.mols[k].priority, token, v);
      assert v in Victims(s.mols, token, 0);
    } else {
      assert forall v :: v in Victims(s.mols, token, 0) ==> HasToken(s.mols, s.mols[v].priority, token, v);
    }
  }

  /**
   The range command removes exactly the molecules from prioFrom to below prioTo, reports nobody, and
   plays what is next; priorities above 5 are refused, so that nothing of priority 5 is ever removed.
   */
  lemma RangeLaw(s: State, e: Event)
    requires Quiet(s) && e.DiscardRange? && e.err == 0 && Step(s, e).Ran?
    ensures var (s', code) := (Step(s, e).s, Step(s, e).code);
            if e.prioFrom > MAX_PRIORITY || e.prioTo > MAX_PRIORITY then code == EINVAL && s' == s
            else && code == OK && Quiet(s')
                 && s'.mols.Keys == s.mols.Keys - InRange(s.mols, e.prioFrom, e.prioTo)
                 && ReportsOnly(s.log, s'.log, None)
                 && PlaysNext(Omit(s.(active := None), InRange(s.mols, e.prioFrom, e.prioTo)), s', e.now)
    ensures 0 <= e.prioFrom <= 5 && e.prioTo <= 5 ==>
              forall k :: k in Step(s, e).s.mols <==> k in s.mols && !(e.prioFrom <= s.mols[k].priority < e.prioTo)
    ensures forall k :: k in s.mols && s.mols[k].priority == MAX_PRIORITY ==> k in Step(s, e).s.mols
  {
    PrepareReady(s, e);
    var prep := Prepare(s, e);
    if prep.Call? {
      ScheduleFromIdle(prep.s, prep.r, e.now);
      IdleReports(prep.s, prep.r, e.now);
      ReportsOne(s.log, Dropped(InRange(s.mols, e.prioFrom, e.prioTo)), None);
      ReportsThen(s.log, prep.s.log, Schedule(prep.s, prep.r, e.now, 0).s.log, None, None);
      ScheduleQuiet(prep.s, prep.r, e.now);
    }
  }

  // ---------- loops ----------

  /**
   At the end of a file, a loop that restarts, mutes or pauses plays on and everything else waits
   unchanged; if it only restarts, it goes to its next atom, and from the last to the first.
   */
  lemma LoopPlaysOn(s: State, e: Event)
    requires Quiet(s) && e.EndOfFile? && e.err == 0 && Step(s, e).Ran?
    requires s.active.Some? && s.mols[s.active.value].mode.Immortal()
    ensures var a := s.active.value;
            var m := s.mols[a];
            var s' := Step(s, e).s;
            && s'.active == Some(a) && a in s'.mols && s'.mols[a].IsActive()
            && s'.mols - {a} == s.mols - {a}
            && s'.log == s.log + [Started(a, s'.mols[a].cur, s'.mols[a].atoms[s'.mols[a].cur].Offset())]
            && (!m.mode.Cyclic() ==> s'.mols[a].cur == if m.cur + 1 < |m.atoms| then m.cur + 1 else 0)
  {
    var a := s.active.value;
    var s0 := Stopped(s, a, e.now);
    NextIs(s0.mols, a);
    var s1 := Settle(s0, a, SchedEndOfFile, e.now);
    var m := s1.mols[a];
    RepositionRevives(m, e.now);
    RepositionFrame(m, e.now);
    if !m.mode.Cyclic() && !m.IsActive() {
      BeginsAgain(m, e.now);
    }
    var c := Reposition(m, e.now).value;
    assert Step(s, e).s == Launch(Put(s1, a, c), a, c, e.now);
    assert Step(s, e).s.mols - {a} == s.mols - {a};
  }

  /** Where the end of a file puts a loop by the clock; one that restarts or pauses begins again after its last atom. */
  function EndPlace(m: Mol, now: nat): nat
    requires m.started <= now
  {
    if m.cur + 1 >= |m.atoms| && (m.mode.restart || !m.mode.mute) then 0
    else if Total(m.atoms) == 0 then 0
    else (now - m.started) % Total(m.atoms)
  }

  /** The loop m is put where the end of a file puts it, as m', and that is in atom i exactly if the place is. */
  predicate GoesOnAt(m: Mol, now: nat, m': Mol, i: nat) {
    && m.started <= now && m'.IsActive() && Position(m') == EndPlace(m, now)
    && (m'.cur == i <==> Covers(m.atoms, EndPlace(m, now), i))
  }

  /**
   At the end of a file, a muted or paused loop starts the atom that covers the time since its start time,
   modulo its length: it goes on to the next one exactly if that time is past the end of this one, and
   starts this one again, at its end, if the end comes in time.
   */
  lemma LoopGoesOn(s: State, e: Event, i: nat)
    requires Quiet(s) && e.EndOfFile? && e.err == 0 && Step(s, e).Ran?
    requires s.active.Some? && s.mols[s.active.value].mode.Cyclic() && i < |s.mols[s.active.value].atoms|
    requires 0 < s.mols[s.active.value].started <= e.now < WORD
    ensures var a, s' := s.active.value, Step(s, e).s;
            a in s'.mols && GoesOnAt(s.mols[a], e.now, s'.mols[a], i)
  {
    var a := s.active.value;
    var t := Stopped(s, a, e.now);
    assert IsNext(t.mols, a);
    EndRound(t, a, e.now);
    ClockEnd(s.mols[a], e.now, i);
  }

  lemma ClockEnd(m: Mol, now: nat, i: nat)
    requires m.mode.Cyclic() && m.IsActive() && i < |m.atoms| && 0 < m.started <= now < WORD
    ensures var p := Reposition(AtStop(m.(stopped := now), SchedEndOfFile, now), now);
            p.Some? ==> p.value.IsActive() && GoesOnAt(m, now, Begun(p.value, now), i)
  {
    assert Minus(now, m.started) == now - m.started;
    var b := AtStop(m.(stopped := now), SchedEndOfFile, now);
    if Reposition(b, now).Some? {
      assert Asked(b, now) == Go(EndPlace(m, now));
      AskedWithin(b, now);
      PositionLaw(b, EndPlace(m, now));
      CursorExact(b, EndPlace(m, now), i);
    }
  }

  // ---------- keys ----------

  /** s' is t but for the stop time of molecule a, if that is still queued. */
  ghost predicate ButStopTime(s': State, t: State, a: nat, stop: nat) {
    && s'.active == t.active && s'.log == t.log && s'.mols.Keys == t.mols.Keys
    && (forall k :: k in s'.mols && k != a ==> s'.mols[k] == t.mols[k])
    && (a in s'.mols ==> s'.mols[a] == t.mols[a].(stopped := stop))
  }

  /** At the end of its atom, m is placed by its stop time. */
  predicate PlacedByStop(m: Mol) {
    m.mode.loop && m.mode.pause && !m.mode.mute && m.cur + 1 < |m.atoms|
  }

  /** Unless a molecule is placed by its stop time, that does not matter to where it is placed. */
  lemma SamePlace(c: Mol, now: nat, stop: nat)
    requires c.mode.loop && c.mode.pause && !c.mode.mute ==> !c.IsActive()
    ensures var p, q := Reposition(c, now), Reposition(c.(stopped := stop), now);
            (p.Some? <==> q.Some?) && (p.Some? ==> q.value == p.value.(stopped := stop))
  {
    var d := c.(stopped := stop);
    assert Asked(c, now) == Asked(d, now);
    if Asked(c, now).Go? {
      assert Positioned(d, Asked(c, now).pos) == Positioned(c, Asked(c, now).pos).(stopped := stop);
    }
  }

  /** The stop time of m after the end of its atom, if that was not noted before: only the last one sets it. */
  function EndStop(m: Mol, now: nat): nat {
    if m.cur + 1 < |m.atoms| then m.stopped else now
  }

  /** Except for that, the stop time plays no part in what becomes of a molecule at the end of its atom. */
  lemma StopUnread(m: Mol, now: nat)
    requires m.IsActive() && !PlacedByStop(m)
    ensures var c := Reposition(AtStop(m, SchedEndOfFile, now), now);
            var d := Reposition(AtStop(m.(stopped := now), SchedEndOfFile, now), now);
            && (c.Some? <==> d.Some?)
            && (c.Some? ==>
                  && c.value == d.value.(stopped := EndStop(m, now))
                  && (!c.value.IsActive() ==> c == d))
  {
    var c, d := AtStop(m, SchedEndOfFile, now), AtStop(m.(stopped := now), SchedEndOfFile, now);
    if c.IsActive() {
      SamePlace(c, now, now);
      if Reposition(c, now).Some? {
        RepositionFrame(c, now);
      }
    } else {
      assert c == d;
    }
  }

  /** The round of scheduling in which the active molecule, which is next, has ended its atom. */
  lemma EndRound(s: State, a: nat, now: nat)
    requires Wellformed(s) && IsNext(s.mols, a) && s.active == Some(a)
    ensures var o := Schedule(s, SchedEndOfFile, now, 0);
            match Reposition(AtStop(s.mols[a], SchedEndOfFile, now), now)
            case None => o.Trapped?
            case Some(c) =>
              if c.IsActive() then o == Ran(Launch(Put(s, a, c), a, c, now), 0)
              else o == Schedule(Remove(Put(s, a, c), a, Finished), SchedEndOfFile, now, 0)
  {
    NextIs(s.mols, a);
    var s1 := Settle(s, a, SchedEndOfFile, now);
    assert s1.mols[a] == AtStop(s.mols[a], SchedEndOfFile, now);
    if c: Mol :| Reposition(s1.mols[a], now) == Some(c) {
      assert Put(s1, a, c).mols == Put(s, a, c).mols;
    }
  }

  /** The two differ in the stop time of a at most. */
  ghost predicate SameOutcome(o: Outcome, p: Outcome, a: nat, stop: nat) {
    (o.Ran? <==> p.Ran?) && (o.Ran? ==> ButStopTime(o.s, p.s, a, stop))
  }

  lemma LaunchedAlike(s: State, a: nat, now: nat, c: Mol, d: Mol, stop: nat)
    requires a in s.mols && c.IsActive() && c == d.(stopped := stop)
    ensures ButStopTime(Launch(Put(s, a, c), a, c, now), Launch(Put(Stopped(s, a, now), a, d), a, d, now), a, stop)
  {
  }

  lemma FinishedAlike(s: State, a: nat, now: nat, c: Mol, stop: nat)
    requires Wellformed(s) && Ready(s) && IsNext(s.mols, a)
    ensures SameOutcome(Schedule(Remove(Put(s, a, c), a, Finished), SchedEndOfFile, now, 0),
                        Schedule(Remove(Put(Stopped(s, a, now), a, c), a, Finished), SchedEndOfFile, now, 0), a, stop)
  {
    var s2 := Remove(Put(s, a, c), a, Finished);
    assert Put(Stopped(s, a, now), a, c).mols == Put(s, a, c).mols;
    if Schedule(s2, SchedEndOfFile, now, 0).Ran? {
      IdleKeeps(s2, SchedEndOfFile, now);
    }
  }

  /** Whether the end of an atom is noted before scheduling matters only to the stop time. */
  lemma StopNotNoted(s: State, a: nat, now: nat)
    requires Quiet(s) && s.active == Some(a) && !PlacedByStop(s.mols[a])
    ensures SameOutcome(Schedule(s, SchedEndOfFile, now, 0), Schedule(Stopped(s, a, now), SchedEndOfFile, now, 0),
                        a, EndStop(s.mols[a], now))
  {
    var t := Stopped(s, a, now);
    assert IsNext(t.mols, a);
    StopUnread(s.mols[a], now);
    EndRound(s, a, now);
    EndRound(t, a, now);
    var c := Reposition(AtStop(s.mols[a], SchedEndOfFile, now), now);
    if c.Some? {
      var d := Reposition(AtStop(t.mols[a], SchedEndOfFile, now), now).value;
      if c.value.IsActive() {
        LaunchedAlike(s, a, now, c.value, d, EndStop(s.mols[a], now));
      } else {
        FinishedAlike(s, a, now, c.value, EndStop(s.mols[a], now));
      }
    }
  }

  /** The cursor is at a recording that is to stop at keys. */
  predicate AtStoppingRecord(m: Mol) {
    m.cur < |m.atoms| && m.atoms[m.cur] == Record(true)
  }

  /** A key ends a recording that stops at keys as the end of a file would, and does nothing else. */
  lemma KeyEndsRecording(s: State, key: Event, file: Event)
    requires Quiet(s) && key.DtmfBegin? && file.EndOfFile? && key.now == file.now && key.err == file.err == 0
    requires s.active.Some? && AtStoppingRecord(s.mols[s.active.value]) ==> !PlacedByStop(s.mols[s.active.value])
    ensures if s.active.None? || !AtStoppingRecord(s.mols[s.active.value]) then Step(s, key) == Ran(s, OK)
            else SameOutcome(Step(s, key), Step(s, file), s.active.value, EndStop(s.mols[s.active.value], key.now))
  {
    if s.active.Some? && DtmfStops(s.mols[s.active.value]) {
      StopNotNoted(s, s.active.value, key.now);
    }
  }

  /**
   A paused loop that has a further atom is placed by its stop time, which a key does not set: a key puts
   it where its last interruption would, and at its beginning if there was none.
   */
  lemma KeyInPausedLoop(s: State, key: Event)
    requires Quiet(s) && key.DtmfBegin? && key.err == 0 && Step(s, key).Ran?
    requires s.active.Some? && AtStoppingRecord(s.mols[s.active.value]) && PlacedByStop(s.mols[s.active.value])
    ensures var a, s' := s.active.value, Step(s, key).s;
            var m := s.mols[a];
            && s'.active == Some(a) && a in s'.mols && s'.mols[a].IsActive() && s'.mols - {a} == s.mols - {a}
            && (m.stopped != 0 ==> Total(m.atoms) > 0)
            && Position(s'.mols[a]) == if m.stopped == 0 then 0 else Minus(m.stopped, m.started) % Total(m.atoms)
  {
    var a := s.active.value;
    var m := s.mols[a];
    EndRound(s, a, key.now);
    var b := AtStop(m, SchedEndOfFile, key.now);
    var c := Reposition(b, key.now).value;
    PositionLaw(b, if m.stopped == 0 then 0 else Minus(m.stopped, m.started) % Total(m.atoms));
    assert Step(s, key).s == Launch(Put(s, a, c), a, c, key.now);
    assert Step(s, key).s.mols - {a} == s.mols - {a};
  }
}
