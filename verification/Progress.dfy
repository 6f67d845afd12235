/**
 How molecules move through their atoms: which branch of schedule a run can reach, in which order
 atoms start, what one end of file does, and that a preempted molecule resumes where it was.
 */
module Progress {

  import opened Options
  import opened Molecules
  import opened Scheduling
  import opened Ledger
  import opened Playing

  // ---------- the active molecule is not rewritten ----------

  /** This call of schedule rewrites the position of the molecule that is playing. */
  ghost predicate Rewrites(s: State, r: Reason) {
    s.active.Some? && Next(s.mols) == s.active && r != SchedEndOfFile
  }

  /** Only enqueueing a molecule without atoms above the active one rewrites the active one's position. */
  lemma RewriteExact(s: State, e: Event)
    requires Quiet(s)
    ensures Prepare(s, e).Call? && Rewrites(Prepare(s, e).s, Prepare(s, e).r)
            <==> e.Enqueue? && e.priority <= MAX_PRIORITY && e.atoms == []
                 && s.active.Some? && s.mols[s.active.value].priority < e.priority
  {
    if e.DiscardToken? {
      DiscardLevelsEffect(s, e.token, 0, DiscardNothing);
    }
    if e.Enqueue? && e.priority <= MAX_PRIORITY && s.active.Some? && s.mols[s.active.value].priority < e.priority {
      var s1 := Prepare(s, e).s;
      NextIs(s1.mols, if e.atoms == [] then s.active.value else |s.enq|);
    }
  }

  // ---------- the order of starts ----------

  /** The atoms of molecule k that were started, in order. */
  function Starts(log: seq<Act>, k: nat): seq<nat> {
    if log == [] then []
    else
      var a := log[|log| - 1];
      Starts(log[..|log| - 1], k) + if a.Started? && a.key == k then [a.atom] else []
  }

  lemma StartsAppended(log: seq<Act>, a: Act)
    ensures forall k :: Starts(log + [a], k) == Starts(log, k) + if a.Started? && a.key == k then [a.atom] else []
  {
    assert (log + [a])[..|log|] == log;
  }

  /** Begins at the first atom; each start is of the same atom again or of the one after it. */
  predicate Walk(xs: seq<nat>) {
    && (xs != [] ==> xs[0] == 0)
    && forall i :: 0 < i < |xs| ==> xs[i] == xs[i - 1] || xs[i] == xs[i - 1] + 1
  }

  /** The last atom started is the one under the cursor; the cursor of a molecule not started is 0. */
  predicate AtCursor(xs: seq<nat>, cur: nat) {
    if xs == [] then cur == 0 else xs[|xs| - 1] == cur
  }

  /** The starts of molecule k are in step with its cursor. */
  ghost predicate WalksAt(s: State, k: nat)
    requires k < |s.enq|
  {
    var xs := Starts(s.log, k);
    && Walk(xs)
    && (s.active == Some(k) ==> xs != [])
    && (k in s.mols ==> |s.mols[k].atoms| == |s.enq[k].atoms| && AtCursor(xs, s.mols[k].cur))
  }

  /** A molecule that finished had its last atom started, and nothing after that. */
  ghost predicate FinishedAll(s: State) {
    forall i :: 0 <= i < |s.log| && s.log[i].Done? && s.log[i].cause == Finished && !s.log[i].m.mode.Immortal() ==>
      && s.log[i].key < |s.enq|
      && Starts(s.log, s.log[i].key) != []
      && Starts(s.log, s.log[i].key)[|Starts(s.log, s.log[i].key)| - 1] == |s.enq[s.log[i].key].atoms| - 1
  }

  ghost predicate InStep(s: State) {
    && (forall k: nat {:trigger Starts(s.log, k)} :: k >= |s.enq| ==> Starts(s.log, k) == [])
    && (forall k :: 0 <= k < |s.enq| && !s.enq[k].mode.Immortal() ==> WalksAt(s, k))
    && FinishedAll(s)
  }

  /** A change that neither logs nor moves a cursor of a molecule that is not placed. */
  lemma CursorKept(s: State, s': State)
    requires InStep(s) && Kept(s) && s'.log == s.log && s'.enq == s.enq && s'.mols.Keys <= s.mols.Keys
    requires s'.active == None || s'.active == s.active
    requires forall k :: k in s'.mols && !s.mols[k].mode.Immortal() ==>
               s'.mols[k].cur == s.mols[k].cur && |s'.mols[k].atoms| == |s.mols[k].atoms|
    ensures InStep(s')
  {
    assert forall k :: k in s'.mols ==> k in s.mols;
    forall k | 0 <= k < |s'.enq| && !s'.enq[k].mode.Immortal() ensures WalksAt(s', k) {
      assert WalksAt(s, k);
    }
  }

  lemma LogInStep(s: State, a: Act)
    requires InStep(s) && !a.Started? && !(a.Done? && a.cause == Finished)
    ensures InStep(s.(log := s.log + [a]))
  {
    StartsAppended(s.log, a);
    var s' := s.(log := s.log + [a]);
    forall k | 0 <= k < |s.enq| && !s.enq[k].mode.Immortal() ensures WalksAt(s', k) {
      assert WalksAt(s, k);
    }
  }

  /** The state schedule goes on with once an interrupted molecule that discards is out of the way. */
  ghost function Cleared(s: State, k: nat): State
    requires Wellformed(s) && k in s.mols
  {
    if s.active.Some? && s.active.value != k && s.mols[s.active.value].mode.discard
    then Remove(s, s.active.value, Discarded) else s
  }

  lemma ClearedInStep(s: State, k: nat)
    requires Sound(s) && InStep(s) && IsNext(s.mols, k)
    ensures Sound(Cleared(s, k)) && InStep(Cleared(s, k)) && IsNext(Cleared(s, k).mols, k)
  {
    if Cleared(s, k) != s {
      var a := s.active.value;
      RemoveSound(s, a, Discarded);
      var s1 := State(s.enq, s.mols - {a}, None, s.log);
      CursorKept(s, s1);
      LogInStep(s1, Done(a, s.mols[a], Discarded));
    }
  }

  /** c is what k becomes in one call of schedule: its cursor moves only if k was started, and by one. */
  ghost predicate Advances(s: State, k: nat, c: Mol)
    requires k in s.mols
  {
    && c.mode == s.mols[k].mode && |c.atoms| == |s.mols[k].atoms|
    && (!c.mode.Immortal() ==> c.cur == s.mols[k].cur || (s.active == Some(k) && c.cur == s.mols[k].cur + 1))
  }

  lemma LaunchWalks(s: State, k: nat, c: Mol, now: nat)
    requires k < |s.enq| && k in s.mols && WalksAt(s, k) && Advances(s, k, c) && c.IsActive() && !c.mode.Immortal()
    ensures WalksAt(Launch(s, k, c, now), k)
  {
    StartsAppended(s.log, Started(k, c.cur, c.atoms[c.cur].Offset()));
  }

  lemma LaunchKeepsFinished(s: State, k: nat, c: Mol, now: nat)
    requires Sound(s) && FinishedAll(s) && k in s.mols && c.IsActive()
    ensures FinishedAll(Launch(s, k, c, now))
  {
    StartsAppended(s.log, Started(k, c.cur, c.atoms[c.cur].Offset()));
    forall i | 0 <= i < |s.log| && s.log[i].Done? ensures s.log[i].key != k {
      DoneIsGone(s, i);
    }
  }

  /** An act about another molecule leaves j in step. */
  lemma OthersWalk(s: State, s': State, j: nat, act: Act)
    requires j < |s.enq| && WalksAt(s, j) && s'.enq == s.enq && s'.log == s.log + [act]
    requires act.Started? ==> act.key != j
    requires s'.active != Some(j) && (j in s'.mols ==> j in s.mols && s'.mols[j] == s.mols[j])
    ensures WalksAt(s', j)
  {
    StartsAppended(s.log, act);
  }

  lemma LaunchInStep(s: State, k: nat, c: Mol, now: nat)
    requires Sound(s) && InStep(s) && k in s.mols && Advances(s, k, c) && c.IsActive()
    ensures InStep(Launch(s, k, c, now))
  {
    var s' := Launch(s, k, c, now);
    var act := Started(k, c.cur, c.atoms[c.cur].Offset());
    forall j | 0 <= j < |s.enq| && !s.enq[j].mode.Immortal() ensures WalksAt(s', j) {
      assert WalksAt(s, j);
      if j == k {
        LaunchWalks(s, k, c, now);
      } else {
        OthersWalk(s, s', j, act);
      }
    }
    LaunchKeepsFinished(s, k, c, now);
    StartsAppended(s.log, act);
  }

  lemma FinishKeepsFinished(s: State, s': State, k: nat, m: Mol)
    requires FinishedAll(s) && k < |s.enq| && s'.enq == s.enq && s'.log == s.log + [Done(k, m, Finished)]
    requires !m.mode.Immortal() ==>
               Starts(s.log, k) != [] && Starts(s.log, k)[|Starts(s.log, k)| - 1] == |s.enq[k].atoms| - 1
    ensures FinishedAll(s')
  {
    StartsAppended(s.log, Done(k, m, Finished));
  }

  lemma FinishInStep(s: State, k: nat, c: Mol)
    requires Sound(s) && InStep(s) && k in s.mols && Advances(s, k, c) && !c.IsActive()
    requires s.mols[k].IsActive()
    ensures InStep(Remove(Put(s, k, c), k, Finished))
  {
    var s' := Remove(Put(s, k, c), k, Finished);
    var act := Done(k, c, Finished);
    forall j | 0 <= j < |s.enq| && !s.enq[j].mode.Immortal() ensures WalksAt(s', j) {
      assert WalksAt(s, j);
      OthersWalk(s, s', j, act);
    }
    assert k < |s.enq| && (!c.mode.Immortal() ==> WalksAt(s, k));
    FinishKeepsFinished(s, s', k, c);
    StartsAppended(s.log, act);
  }

  /** The first round of a call of schedule, before anything starts. */
  lemma RoundAdvances(s: State, k: nat, r: Reason, now: nat, c: Mol)
    requires Wellformed(s) && IsNext(s.mols, k) && !Rewrites(s, r)
    requires Reposition(Settle(s, k, r, now).mols[k], now) == Some(c)
    ensures Advances(Cleared(s, k), k, c)
  {
    NextIs(s.mols, k);
    RepositionFrame(Settle(s, k, r, now).mols[k], now);
  }

  lemma RoundCleared(s: State, k: nat, r: Reason, now: nat, c: Mol)
    requires Wellformed(s) && IsNext(s.mols, k)
    ensures !c.IsActive() || Launch(Put(Settle(s, k, r, now), k, c), k, c, now) == Launch(Cleared(s, k), k, c, now)
    ensures Remove(Put(Settle(s, k, r, now), k, c), k, Finished) == Remove(Put(Cleared(s, k), k, c), k, Finished)
  {
    assert Put(Settle(s, k, r, now), k, c).mols == Put(Cleared(s, k), k, c).mols;
    if c.IsActive() {
      assert Launch(Put(Settle(s, k, r, now), k, c), k, c, now).mols == Launch(Cleared(s, k), k, c, now).mols;
    }
  }

  lemma {:induction false} ScheduleInStep(s: State, r: Reason, now: nat)
    requires Sound(s) && Ready(s) && InStep(s) && !Rewrites(s, r)
    ensures Schedule(s, r, now, 0).Ran? ==> InStep(Schedule(s, r, now, 0).s)
    decreases |s.mols|
  {
    match Next(s.mols)
    case None => CursorKept(s, s.(active := None));
    case Some(k) =>
      match Reposition(Settle(s, k, r, now).mols[k], now)
      case None =>
      case Some(c) =>
        ClearedInStep(s, k);
        RoundAdvances(s, k, r, now, c);
        RoundCleared(s, k, r, now, c);
        if c.IsActive() {
          LaunchInStep(Cleared(s, k), k, c, now);
        } else {
          SettleSound(s, k, r, now);
          FinishSound(Settle(s, k, r, now), k, now, c);
          FinishInStep(Cleared(s, k), k, c);
          FewerLeft(s, k, r, now, c);
          ScheduleInStep(Remove(Put(Settle(s, k, r, now), k, c), k, Finished), r, now);
        }
  }

  lemma PushInStep(s: State, m: Mol)
    requires Sound(s) && InStep(s) && m.cur == 0
    ensures InStep(Push(s, m))
  {
    var s' := Push(s, m);
    forall k | 0 <= k < |s'.enq| && !s'.enq[k].mode.Immortal() ensures WalksAt(s', k) {
      assert k < |s.enq| ==> WalksAt(s, k);
      assert Starts(s.log, |s.enq|) == [];
    }
  }

  lemma {:induction false} DiscardLevelsInStep(s: State, token: string, p: nat, res: DiscardResult)
    requires Sound(s) && InStep(s) && p <= MAX_PRIORITY + 1
    ensures InStep(DiscardLevels(s, token, p, res).0)
    decreases MAX_PRIORITY + 1 - p
  {
    if p <= MAX_PRIORITY {
      match Victim(s.mols, p, token)
      case None => DiscardLevelsInStep(s, token, p + 1, res);
      case Some(k) =>
        var s1 := State(s.enq, s.mols - {k}, if s.active == Some(k) then None else s.active, s.log);
        CursorKept(s, s1);
        LogInStep(s1, if s.active == Some(k) then Done(k, s.mols[k], Discarded) else Dropped({k}));
        DiscardSound(s, k);
        DiscardLevelsInStep(Discard(s, k).0, token, p + 1, Discard(s, k).1);
    }
  }

  lemma PrepareInStep(s: State, e: Event)
    requires Sound(s) && InStep(s)
    ensures InStep(Prepare(s, e).s)
  {
    match e
    case Enqueue(token, priority, mode, atoms, now, err) =>
      if 0 <= priority <= MAX_PRIORITY {
        PushSound(s, Fresh(e));
        PushInStep(s, Fresh(e));
        if s.active.Some? {
          CursorKept(Push(s, Fresh(e)), Stopped(Push(s, Fresh(e)), s.active.value, now));
        }
      }
    case EndOfFile(now, err) =>
      if s.active.Some? {
        CursorKept(s, Stopped(s, s.active.value, now));
      }
    case DtmfBegin(now, err) =>
    case DiscardToken(token, now, err) => DiscardLevelsInStep(s, token, 0, DiscardNothing);
    case DiscardRange(prioFrom, prioTo, now, err) =>
      if Prepare(s, e).Call? {
        var gone := InRange(s.mols, prioFrom, prioTo);
        CursorKept(s, State(s.enq, s.mols - gone, None, s.log));
        LogInStep(State(s.enq, s.mols - gone, None, s.log), Dropped(gone));
      }
  }

  lemma StepInStep(s: State, e: Event)
    requires Sound(s) && Quiet(s) && Filled(s) && InStep(s) && Audible(e)
    ensures Step(s, e).Ran? ==> InStep(Step(s, e).s)
  {
    PrepareInStep(s, e);
    PrepareSound(s, e);
    RewriteExact(s, e);
    PrepareReady(s, e);
    if Prepare(s, e).Call? {
      ScheduleInStep(Prepare(s, e).s, Prepare(s, e).r, e.now);
    }
  }

  lemma {:induction false} RunInStep(s: State, es: seq<Event>)
    requires Sound(s) && Quiet(s) && Filled(s) && InStep(s)
    requires forall i :: 0 <= i < |es| ==> Audible(es[i])
    ensures Run(s, es).Ran? ==> InStep(Run(s, es).s)
    decreases |es|
  {
    if es != [] {
      StepSound(s, es[0]);
      StepAudible(s, es[0]);
      StepInStep(s, es[0]);
      if Step(s, es[0]).Ran? {
        RunInStep(Step(s, es[0]).s, es[1..]);
      }
    }
  }

  /**
   In every audible run, the atoms of a molecule that is no restarting, muted or paused loop are started
   from the first on, each start being of the same atom again or of the one after it, and a molecule
   that finishes has had its last atom started.
   */
  lemma {:induction false} EveryStartInOrder(es: seq<Event>, k: nat)
    requires forall i :: 0 <= i < |es| ==> Audible(es[i])
    requires Run(INITIAL, es).Ran?
    ensures var s := Run(INITIAL, es).s;
            && (k < |s.enq| && !s.enq[k].mode.Immortal() ==> WalksAt(s, k))
            && FinishedAll(s)
  {
    RunInStep(INITIAL, es);
  }
}
