/**
 Times over whole runs: with a clock that never goes back, no start or stop lies in the future, so
 the position of a muted looping molecule is never computed from a negative time. For paused ones
 the same is not true, as the runs in `Examples` show.
 */
module Clock {

  import opened Options
  import opened Molecules
  import opened Scheduling
  import opened Playing
  import opened Progress
  import opened Preemption

  ghost predicate Punctual(s: State, t: nat) {
    forall k :: k in s.mols ==> s.mols[k].started <= t && s.mols[k].stopped <= t
  }

  /** The events from time t on come in order of time. */
  predicate Ticking(t: nat, es: seq<Event>)
    decreases |es|
  {
    es != [] ==> t <= es[0].now && Ticking(es[0].now, es[1..])
  }

  function LastTick(t: nat, es: seq<Event>): nat
    decreases |es|
  {
    if es == [] then t else LastTick(es[0].now, es[1..])
  }

  lemma ApproachPunctual(s: State, k: nat, r: Reason, now: nat, c: Mol)
    requires Punctual(s, now) && k in s.mols && Reposition(Settle(s, k, r, now).mols[k], now) == Some(c)
    ensures Punctual(Put(Settle(s, k, r, now), k, c), now)
  {
    assert Settle(s, k, r, now).mols[k].stopped <= now;
    RepositionFrame(Settle(s, k, r, now).mols[k], now);
  }

  lemma {:induction false} SchedulePunctual(s: State, r: Reason, now: nat, err: nat)
    requires Punctual(s, now)
    ensures Schedule(s, r, now, err).Ran? ==> Punctual(Schedule(s, r, now, err).s, now)
    decreases |s.mols|
  {
    match Next(s.mols)
    case None =>
    case Some(k) =>
      var s1 := Settle(s, k, r, now);
      match Reposition(s1.mols[k], now)
      case None =>
      case Some(c) =>
        ApproachPunctual(s, k, r, now, c);
        if !c.IsActive() {
          FewerLeft(s, k, r, now, c);
          SchedulePunctual(Remove(Put(s1, k, c), k, Finished), r, now, err);
        }
  }

  lemma StepPunctual(s: State, e: Event)
    requires Wellformed(s) && Punctual(s, e.now)
    ensures Step(s, e).Ran? ==> Punctual(Step(s, e).s, e.now)
  {
    if e.DiscardToken? {
      DiscardLevelsState(s, e.token, 0, DiscardNothing);
    }
    var prep := Prepare(s, e);
    assert Punctual(prep.s, e.now);
    if prep.Call? {
      SchedulePunctual(prep.s, prep.r, e.now, e.err);
    }
  }

  lemma {:induction false} RunPunctual(s: State, t: nat, es: seq<Event>)
    requires Wellformed(s) && Punctual(s, t) && Ticking(t, es)
    ensures Run(s, es).Ran? ==> Punctual(Run(s, es).s, LastTick(t, es))
    decreases |es|
  {
    if es != [] {
      StepPunctual(s, es[0]);
      if Step(s, es[0]).Ran? {
        RunPunctual(Step(s, es[0]).s, es[0].now, es[1..]);
      }
    }
  }

  /** Event e starts the muted looping molecule k, and does not send it back to its beginning. */
  ghost predicate Resumed(s: State, e: Event, k: nat)
    requires Wellformed(s)
  {
    && k in s.mols && s.mols[k].mode.mute && s.mols[k].started != 0
    && Step(s, e).Ran? && Step(s, e).s.active == Some(k)
    && Prepare(s, e).Call? && k in Prepare(s, e).s.mols && KeepsTime(Prepare(s, e).s, Prepare(s, e).r, k)
  }

  lemma PrepareKeepsTimes(s: State, e: Event, k: nat)
    requires Wellformed(s) && k in s.mols && k in Prepare(s, e).s.mols
    ensures Prepare(s, e).s.mols[k] == s.mols[k].(stopped := Prepare(s, e).s.mols[k].stopped)
  {
    if e.DiscardToken? {
      DiscardLevelsState(s, e.token, 0, DiscardNothing);
    }
  }

  /** From s to s', molecule k is put at the time since it started, modulo its length. */
  ghost predicate InTime(s: State, s': State, now: nat, k: nat) {
    && k in s.mols && k in s'.mols && s.mols[k].started <= now
    && PlacedAt(s'.mols[k], s.mols[k].atoms, now - s.mols[k].started)
  }

  lemma ScheduleMuted(s: State, p: State, r: Reason, now: nat, k: nat, s': State)
    requires Wellformed(p) && k in p.mols && k in s.mols && KeepsTime(p, r, k)
    requires Schedule(p, r, now, 0).Ran? && Schedule(p, r, now, 0).s == s' && s'.active == Some(k)
    requires p.mols[k] == s.mols[k].(stopped := p.mols[k].stopped)
    requires p.mols[k].mode.mute && 0 < p.mols[k].started <= now < WORD
    ensures InTime(s, s', now, k)
  {
    MutedPosition(p, r, now, k);
  }

  lemma StepMuted(s: State, e: Event, k: nat)
    requires Wellformed(s) && Punctual(s, e.now) && e.now < WORD && e.err == 0 && Resumed(s, e, k)
    ensures InTime(s, Step(s, e).s, e.now, k)
  {
    PrepareKeepsTimes(s, e, k);
    ScheduleMuted(s, Prepare(s, e).s, Prepare(s, e).r, e.now, k, Step(s, e).s);
  }

  /**
   After every run by a clock that does not go back, an event that resumes the muted looping molecule
   k puts it at the time since k started, modulo its length.
   */
  lemma EveryMutedResume(es: seq<Event>, e: Event, k: nat)
    requires Ticking(0, es) && Run(INITIAL, es).Ran?
    requires LastTick(0, es) <= e.now < WORD && e.err == 0 && Resumed(Run(INITIAL, es).s, e, k)
    ensures var s := Run(INITIAL, es).s;
            InTime(s, Step(s, e).s, e.now, k)
  {
    RunPunctual(INITIAL, 0, es);
    var s := Run(INITIAL, es).s;
    assert Punctual(s, e.now);
    StepMuted(s, e, k);
  }
}
