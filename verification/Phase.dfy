/**
 Whether a loop that was interrupted comes back where it should: a paused one where it stopped, a
 muted one where it would be had it played on. Both are computed from the start time, which is set
 each time the first atom starts, also at an offset; so both hold exactly if the loop was in phase.
 */
module Phase {

  import opened Options
  import opened Molecules
  import opened Scheduling
  import opened Playing
  import opened Preemption
  import opened Commands
  import opened Clock

  /** m plays, and its atom was started at time t. */
  predicate LaunchedAt(m: Mol, t: nat) {
    m.IsActive() && m.started <= t && (m.cur == 0 ==> m.started == t)
  }

  /** m was as far at time t as a loop that plays since its start time. */
  predicate InPhase(m: Mol, t: nat)
    requires m.IsActive() && Total(m.atoms) > 0
  {
    (Position(m) - (t - m.started)) % Total(m.atoms) == 0
  }

  /** An event that starts molecule k leaves it launched at that time. */
  lemma LaunchTime(s: State, e: Event, k: nat)
    requires Wellformed(s) && Punctual(s, e.now) && e.err == 0 && Prepare(s, e).Call?
    requires Step(s, e).Ran? && Step(s, e).s.active == Some(k)
    ensures k in Step(s, e).s.mols && LaunchedAt(Step(s, e).s.mols[k], e.now)
  {
    StepPunctual(s, e);
    var prep := Prepare(s, e);
    LaunchCursor(prep.s, prep.r, e.now, k);
  }

  lemma {:induction false} LaunchCursor(s: State, r: Reason, now: nat, k: nat)
    requires Schedule(s, r, now, 0).Ran? && Schedule(s, r, now, 0).s.active == Some(k)
    ensures var s' := Schedule(s, r, now, 0).s;
            k in s'.mols && s'.mols[k].IsActive() && (s'.mols[k].cur == 0 ==> s'.mols[k].started == now)
    decreases |s.mols|
  {
    match Next(s.mols)
    case None =>
    case Some(j) =>
      var s1 := Settle(s, j, r, now);
      match Reposition(s1.mols[j], now)
      case None =>
      case Some(c) =>
        if !c.IsActive() {
          FewerLeft(s, j, r, now, c);
          LaunchCursor(Remove(Put(s1, j, c), j, Finished), r, now, k);
        }
  }

  // ---------- arithmetic ----------

  lemma AtLeastOne(d: int, n: nat)
    ensures d >= 1 ==> d * n >= n
    ensures d <= -1 ==> d * n <= 0 - n
  {
  }

  lemma Quotient(x: int, n: nat, q: int)
    requires n > 0 && q * n <= x < q * n + n
    ensures x / n == q && x % n == x - q * n
  {
    assert x == (x / n) * n + x % n;
    assert (x / n) * n == q * n + (x / n - q) * n;
    AtLeastOne(x / n - q, n);
  }

  /** Two numbers have the same remainder if and only if their difference has none. */
  lemma SameRemainder(a: int, b: int, n: nat)
    requires n > 0
    ensures a % n == b % n <==> (a - b) % n == 0
  {
    var q := a / n - b / n;
    assert q * n == (a / n) * n - (b / n) * n;
    var d := a % n - b % n;
    assert a - b == q * n + d;
    if d >= 0 {
      Quotient(a - b, n, q);
    } else {
      assert (q - 1) * n == q * n - n;
      Quotient(a - b, n, q - 1);
    }
  }

  // ---------- one interruption ----------

  /**
   A paused loop that played from t0 and stopped at t1 is placed where it stopped if and only if it was
   in phase at t0.
   */
  lemma PausedExact(m: Mol, t0: nat, t1: nat, now: nat)
    requires m.mode.loop && m.mode.pause && !m.mode.mute && Total(m.atoms) > 0
    requires LaunchedAt(m, t0) && t0 <= t1 < WORD
    ensures var c := Reposition(m.(stopped := t1), now);
            && c.Some? && c.value.IsActive()
            && (Position(c.value) == (Position(m) + (t1 - t0)) % Total(m.atoms) <==> InPhase(m, t0))
  {
    var b := m.(stopped := t1);
    if t1 == 0 {
      PositionLaw(b, 0);
    } else {
      PausedPlace(b, now);
    }
    SameRemainder(Position(m) + (t1 - t0), t1 - m.started, Total(m.atoms));
  }

  /**
   A muted loop that played from t0 on and comes back at t2 is placed where it would be had it played
   on if and only if it was in phase at t0.
   */
  lemma MutedExact(m: Mol, t0: nat, t1: nat, t2: nat)
    requires m.mode.loop && m.mode.mute && Total(m.atoms) > 0
    requires LaunchedAt(m, t0) && 0 < m.started && t0 <= t2 < WORD
    ensures var c := Reposition(m.(stopped := t1), t2);
            && c.Some? && c.value.IsActive()
            && (Position(c.value) == (Position(m) + (t2 - t0)) % Total(m.atoms) <==> InPhase(m, t0))
  {
    MutedPlace(m.(stopped := t1), t2);
    SameRemainder(Position(m) + (t2 - t0), t2 - m.started, Total(m.atoms));
  }

  lemma BegunPlace(c: Mol, now: nat)
    requires c.IsActive()
    ensures Begun(c, now).IsActive() && Position(Begun(c, now)) == Position(c)
  {
  }

  /** Molecule m, which played from t0, comes back as m' where it was at t1 if and only if it was in phase. */
  predicate RightIfInPhase(m: Mol, t0: nat, t1: nat, m': Mol) {
    && m.IsActive() && m'.IsActive() && Total(m.atoms) > 0 && t0 <= t1
    && (Position(m') == (Position(m) + (t1 - t0)) % Total(m.atoms) <==> InPhase(m, t0))
  }

  lemma PausedComesBack(m: Mol, t0: nat, t1: nat, now: nat, s': State, a: nat)
    requires m.mode.loop && m.mode.pause && !m.mode.mute && Total(m.atoms) > 0
    requires LaunchedAt(m, t0) && t0 <= t1 < WORD && PlaysAgain(m.(stopped := t1), now, s', a)
    ensures RightIfInPhase(m, t0, t1, s'.mols[a])
  {
    PausedExact(m, t0, t1, now);
    BegunPlace(Reposition(m.(stopped := t1), now).value, now);
  }

  lemma MutedComesBack(m: Mol, t0: nat, t1: nat, t2: nat, s': State, a: nat)
    requires m.mode.loop && m.mode.mute && Total(m.atoms) > 0
    requires LaunchedAt(m, t0) && 0 < m.started && t0 <= t2 < WORD && PlaysAgain(m.(stopped := t1), t2, s', a)
    ensures RightIfInPhase(m, t0, t2, s'.mols[a])
  {
    MutedExact(m, t0, t1, t2);
    BegunPlace(Reposition(m.(stopped := t1), t2).value, t2);
  }

  /** A paused loop that is interrupted and comes back is where it stopped if and only if it was in phase. */
  lemma PausedLoopResumes(s: State, a: nat, up: Event, es: seq<Event>, back: Event, s': State, t0: nat)
    requires Interlude(s, a, up, es, back, s') && a in s.mols
    requires s.mols[a].mode.loop && s.mols[a].mode.pause && !s.mols[a].mode.mute && Total(s.mols[a].atoms) > 0
    requires LaunchedAt(s.mols[a], t0) && t0 <= up.now < WORD
    ensures a in s'.mols && RightIfInPhase(s.mols[a], t0, up.now, s'.mols[a])
  {
    PreemptedReturns(s, a, up, es, back, s');
    PausedComesBack(s.mols[a], t0, up.now, back.now, s', a);
  }

  /** A muted loop that comes back is where it would be had it played on if and only if it was in phase. */
  lemma MutedLoopResumes(s: State, a: nat, up: Event, es: seq<Event>, back: Event, s': State, t0: nat)
    requires Interlude(s, a, up, es, back, s') && a in s.mols
    requires s.mols[a].mode.loop && s.mols[a].mode.mute && Total(s.mols[a].atoms) > 0
    requires LaunchedAt(s.mols[a], t0) && 0 < s.mols[a].started && t0 <= back.now < WORD
    ensures a in s'.mols && RightIfInPhase(s.mols[a], t0, back.now, s'.mols[a])
  {
    PreemptedReturns(s, a, up, es, back, s');
    MutedComesBack(s.mols[a], t0, up.now, back.now, s', a);
  }

  // ---------- the next interruption ----------

  /** A loop that begins at its first atom without an offset is in phase. */
  lemma BeginningInPhase(c: Mol, now: nat)
    requires c.IsActive() && c.cur == 0 && c.atoms[0].Offset() == 0 && Total(c.atoms) > 0
    ensures InPhase(Begun(c, now), now)
  {
  }

  /** In its first atom, a loop that comes back is in phase only at the beginning or the end of it all. */
  lemma FirstAtomPhase(c: Mol, now: nat)
    requires c.IsActive() && c.cur == 0 && Total(c.atoms) > 0
    ensures InPhase(Begun(c, now), now) <==> Position(c) % Total(c.atoms) == 0
  {
    BegunPlace(c, now);
  }

  /**
   A paused loop that has come back is in phase if and only if it is at its beginning, or beyond its
   first atom after a pause as long as the loop or a multiple of that.
   */
  lemma PausedPhase(m: Mol, now: nat)
    requires m.mode.loop && m.mode.pause && !m.mode.mute && Total(m.atoms) > 0
    requires m.IsActive() && 0 < m.stopped && m.started <= m.stopped <= now < WORD
    ensures var c := Reposition(m, now);
            && c.Some? && c.value.IsActive() && Total(c.value.atoms) == Total(m.atoms)
            && (InPhase(Begun(c.value, now), now) <==>
                if c.value.cur == 0 then Position(c.value) % Total(m.atoms) == 0
                else (now - m.stopped) % Total(m.atoms) == 0)
  {
    PausedPlace(m, now);
    RepositionFrame(m, now);
    var c := Reposition(m, now).value;
    if c.cur == 0 {
      FirstAtomPhase(c, now);
    } else {
      var n := Total(m.atoms);
      SameRemainder(Position(c), now - m.started, n);
      SameRemainder(now - m.started, m.stopped - m.started, n);
      assert Position(c) == (m.stopped - m.started) % n;
      Small(Position(c), m.stopped - m.started, n);
    }
  }

  lemma Small(x: int, y: int, n: nat)
    requires n > 0 && x == y % n
    ensures x % n == y % n
  {
    Quotient(x, n, 0);
  }

  /** A muted loop that has come back is in phase if and only if it is at its beginning or beyond its first atom. */
  lemma MutedPhase(m: Mol, now: nat)
    requires m.mode.loop && m.mode.mute && Total(m.atoms) > 0
    requires m.IsActive() && 0 < m.started <= now < WORD
    ensures var c := Reposition(m, now);
            && c.Some? && c.value.IsActive() && Total(c.value.atoms) == Total(m.atoms)
            && (InPhase(Begun(c.value, now), now) <==>
                c.value.cur > 0 || Position(c.value) % Total(m.atoms) == 0)
  {
    MutedPlace(m, now);
    RepositionFrame(m, now);
    var c := Reposition(m, now).value;
    if c.cur == 0 {
      FirstAtomPhase(c, now);
    } else {
      Small(Position(c), now - m.started, Total(m.atoms));
      SameRemainder(Position(c), now - m.started, Total(m.atoms));
    }
  }

  // ---------- a molecule that is started again though it was not to stop ----------

  /** At its time, m is where it would be had it played on exactly if its position was the time since its start. */
  predicate AtItsTimeExact(m: Mol, t0: nat, now: nat, m': Mol) {
    && m.IsActive() && m'.IsActive() && m.started <= t0 <= now
    && (Position(m') == Position(m) + (now - t0)
        <==> if now - m.started <= Total(m.atoms) then Position(m) == t0 - m.started else now == t0)
  }

  lemma TimeRight(m: Mol, t0: nat, now: nat, m': Mol)
    requires LaunchedAt(m, t0) && t0 <= now && AtItsTime(m, now, m')
    ensures AtItsTimeExact(m, t0, now, m')
  {
  }

  /**
   An empty molecule above the active one, which is no loop by the clock, leaves that where it would be
   had it played on if and only if its position was the time since its start time; past its end, only
   if it has just started.
   */
  lemma EmptyExact(s: State, e: Event, a: nat, s': State, t0: nat)
    requires Nudges(s, e, a, s') && a in s.mols && !s.mols[a].mode.Cyclic()
    requires LaunchedAt(s.mols[a], t0) && t0 <= e.now < WORD
    ensures a in s'.mols && AtItsTimeExact(s.mols[a], t0, e.now, s'.mols[a])
  {
    EmptyRepositions(s, e, a, s');
    TimeRight(s.mols[a], t0, e.now, s'.mols[a]);
  }

  /** For a loop by the clock, the same holds if and only if it was in phase. */
  lemma EmptyLoopExact(s: State, e: Event, a: nat, s': State, t0: nat)
    requires Nudges(s, e, a, s') && a in s.mols && s.mols[a].mode.Cyclic()
    requires 0 < s.mols[a].started && LaunchedAt(s.mols[a], t0) && t0 <= e.now < WORD
    ensures a in s'.mols && RightIfInPhase(s.mols[a], t0, e.now, s'.mols[a])
  {
    EmptyRepositionsLoop(s, e, a, s');
    LoopRight(s.mols[a], t0, e.now, s'.mols[a]);
  }

  /** At its turn, a loop is where it would be had it played on exactly if it was in phase. */
  lemma LoopRight(m: Mol, t0: nat, t1: nat, m': Mol)
    requires LaunchedAt(m, t0) && t0 <= t1 && AtItsTurn(m, t1, m')
    ensures RightIfInPhase(m, t0, t1, m')
  {
    SameRemainder(Position(m) + (t1 - t0), t1 - m.started, Total(m.atoms));
  }

  /** Event e is a range command that goes through and does not clear the active molecule a. */
  ghost predicate Spares(s: State, e: Event, a: nat) {
    && Quiet(s) && s.active == Some(a) && e.DiscardRange? && e.err == 0 && Step(s, e).Ran?
    && e.prioFrom <= MAX_PRIORITY && e.prioTo <= MAX_PRIORITY && a !in InRange(s.mols, e.prioFrom, e.prioTo)
  }

  /** The range command starts the active molecule again, without noting that it stops. */
  lemma RangeRestarts(s: State, e: Event, a: nat)
    requires Spares(s, e, a)
    ensures a in s.mols && s.mols[a].IsActive() && Step(s, e).Ran? && Step(s, e).s.active == Some(a)
    ensures PlaysAgain(s.mols[a], e.now, Step(s, e).s, a)
  {
    RangeLaw(s, e);
    var s1 := Omit(s.(active := None), InRange(s.mols, e.prioFrom, e.prioTo));
    assert s1.mols[a] == s.mols[a] && IsNext(s1.mols, a);
    NextIs(s1.mols, a);
  }

  /** One that is no loop by the clock starts its atom again where that last started, however long it has played. */
  lemma RangePlain(s: State, e: Event, a: nat, t0: nat)
    requires Spares(s, e, a) && a in s.mols && !s.mols[a].mode.Cyclic() && LaunchedAt(s.mols[a], t0) && t0 <= e.now
    ensures var m, s' := s.mols[a], Step(s, e).s;
            && a in s'.mols && s'.mols[a] == Begun(m, e.now) && s'.mols[a].IsActive()
            && s'.log != [] && s'.log[|s'.log| - 1] == Started(a, m.cur, m.atoms[m.cur].Offset())
            && (Position(s'.mols[a]) == Position(m) + (e.now - t0) <==> e.now == t0)
  {
    RangeRestarts(s, e, a);
    RepositionFrame(s.mols[a], e.now);
    BegunPlace(s.mols[a], e.now);
  }

  /** A muted loop is where it would be had it played on if and only if it was in phase. */
  lemma RangeMuted(s: State, e: Event, a: nat, t0: nat)
    requires Spares(s, e, a) && a in s.mols && s.mols[a].mode.loop && s.mols[a].mode.mute
    requires Total(s.mols[a].atoms) > 0 && 0 < s.mols[a].started && LaunchedAt(s.mols[a], t0) && t0 <= e.now < WORD
    ensures a in Step(s, e).s.mols && RightIfInPhase(s.mols[a], t0, e.now, Step(s, e).s.mols[a])
  {
    RangeRestarts(s, e, a);
    MutedComesBack(s.mols[a], t0, s.mols[a].stopped, e.now, Step(s, e).s, a);
  }

  /** The time a paused loop is placed by: that from its start to its last stop, if it was ever stopped. */
  function Apart(m: Mol): nat {
    if m.stopped == 0 then 0 else Minus(m.stopped, m.started)
  }

  lemma PausedAgain(m: Mol, now: nat, s': State, a: nat)
    requires m.mode.loop && m.mode.pause && !m.mode.mute && m.IsActive() && PlaysAgain(m, now, s', a)
    ensures s'.mols[a].IsActive() && (m.stopped != 0 ==> Total(m.atoms) > 0)
    ensures Position(s'.mols[a]) == if Total(m.atoms) == 0 then 0 else Apart(m) % Total(m.atoms)
  {
    var pos := if m.stopped == 0 then 0 else Apart(m) % Total(m.atoms);
    assert Reposition(m, now) == Some(Positioned(m, pos));
    PositionLaw(m, pos);
    BegunPlace(Positioned(m, pos), now);
  }

  /** A paused loop goes back to where its last interruption would put it, or to its beginning. */
  lemma RangeMovesPaused(s: State, e: Event, a: nat)
    requires Spares(s, e, a) && a in s.mols
    requires s.mols[a].mode.loop && s.mols[a].mode.pause && !s.mols[a].mode.mute
    ensures var m, s' := s.mols[a], Step(s, e).s;
            && s'.active == Some(a) && a in s'.mols && s'.mols[a].IsActive()
            && (m.stopped != 0 ==> Total(m.atoms) > 0)
            && Position(s'.mols[a]) == if Total(m.atoms) == 0 then 0 else Apart(m) % Total(m.atoms)
  {
    RangeRestarts(s, e, a);
    PausedAgain(s.mols[a], e.now, Step(s, e).s, a);
  }

  /** Molecule m, which played from t0, is at t1 where it would be had it played on if and only if `right`. */
  predicate RightIff(m: Mol, t0: nat, t1: nat, m': Mol, right: bool) {
    && m.IsActive() && m'.IsActive() && Total(m.atoms) > 0 && t0 <= t1
    && (Position(m') == (Position(m) + (t1 - t0)) % Total(m.atoms) <==> right)
  }

  /** What a paused loop has played must be what it is placed by, up to its length. */
  predicate PlayedApart(m: Mol, t0: nat, t1: nat)
    requires m.IsActive() && Total(m.atoms) > 0
  {
    (Position(m) + (t1 - t0) - Apart(m)) % Total(m.atoms) == 0
  }

  lemma PausedAgainExact(m: Mol, t0: nat, now: nat, s': State, a: nat)
    requires m.mode.loop && m.mode.pause && !m.mode.mute && m.IsActive() && Total(m.atoms) > 0
    requires t0 <= now && PlaysAgain(m, now, s', a)
    ensures RightIff(m, t0, now, s'.mols[a], PlayedApart(m, t0, now))
  {
    PausedAgain(m, now, s', a);
    SameRemainder(Position(m) + (now - t0), Apart(m), Total(m.atoms));
  }

  /** A paused loop that a range command spares is where it would be had it played on if and only if `PlayedApart`. */
  lemma RangePausedExact(s: State, e: Event, a: nat, t0: nat)
    requires Spares(s, e, a) && a in s.mols && Total(s.mols[a].atoms) > 0 && t0 <= e.now
    requires s.mols[a].mode.loop && s.mols[a].mode.pause && !s.mols[a].mode.mute && s.mols[a].IsActive()
    ensures a in Step(s, e).s.mols
    ensures RightIff(s.mols[a], t0, e.now, Step(s, e).s.mols[a], PlayedApart(s.mols[a], t0, e.now))
  {
    RangeRestarts(s, e, a);
    PausedAgainExact(s.mols[a], t0, e.now, Step(s, e).s, a);
  }

  /**
   For a loop in phase, this holds if and only if the time since its last stop, or since its start if it was
   never stopped, is a multiple of its length.
   */
  lemma PlayedApartInPhase(m: Mol, t0: nat, t1: nat)
    requires LaunchedAt(m, t0) && t0 <= t1 && Total(m.atoms) > 0 && InPhase(m, t0)
    requires m.stopped == 0 || m.started <= m.stopped < WORD
    ensures PlayedApart(m, t0, t1)
            <==> (t1 - (if m.stopped == 0 then m.started else m.stopped)) % Total(m.atoms) == 0
  {
    var since := if m.stopped == 0 then m.started else m.stopped;
    assert Apart(m) == since - m.started;
    SameRemainder(Position(m) + (t1 - t0) - Apart(m), t1 - since, Total(m.atoms));
    Zero(t1 - since, Position(m) + (t1 - t0) - Apart(m), Total(m.atoms));
  }

  lemma Zero(x: int, y: int, n: nat)
    requires n > 0 && x % n == y % n
    ensures x % n == 0 <==> y % n == 0
  {
  }
}
