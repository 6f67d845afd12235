/**
 What plays when starting an atom succeeds: the active molecule is always the one that is next,
 so no molecule waits while one of lower priority plays. The one way to lose this is the discard
 command, and exactly when is proved here.
 */
module Playing {

  import opened Options
  import opened Molecules
  import opened Scheduling

  /** No queued molecule with atoms is past its last one. */
  ghost predicate Ready(s: State) {
    forall k :: k in s.mols && s.mols[k].Playable() ==> s.mols[k].IsActive()
  }

  ghost predicate ActiveIsNext(s: State) {
    s.active == Next(s.mols)
  }

  ghost predicate Quiet(s: State) {
    Wellformed(s) && Ready(s) && ActiveIsNext(s)
  }

  /** Every molecule the queue holds has atoms. */
  ghost predicate Filled(s: State) {
    forall k :: k in s.mols ==> s.mols[k].Playable()
  }

  // ---------- schedule ----------

  lemma SettleNext(s: State, k: nat, r: Reason, now: nat)
    requires IsNext(s.mols, k)
    ensures IsNext(Settle(s, k, r, now).mols, k)
  {
  }

  /** Before k starts or is removed, the others are ready. */
  lemma ApproachReady(s: State, k: nat, r: Reason, now: nat, c: Mol)
    requires Wellformed(s) && Ready(s) && IsNext(s.mols, k)
    requires Reposition(Settle(s, k, r, now).mols[k], now) == Some(c)
    ensures var s2 := Put(Settle(s, k, r, now), k, c);
            && Wellformed(s2) && IsNext(s2.mols, k) && (Filled(s) ==> Filled(s2))
            && (if c.IsActive() then Ready(s2)
                else Wellformed(Remove(s2, k, Finished)) && Ready(Remove(s2, k, Finished)))
  {
    SettleNext(s, k, r, now);
    RepositionFrame(Settle(s, k, r, now).mols[k], now);
  }

  lemma LaunchQuiet(s: State, k: nat, c: Mol, now: nat)
    requires Wellformed(s) && Ready(s) && IsNext(s.mols, k) && s.mols[k] == c && c.IsActive()
    ensures Quiet(Launch(s, k, c, now)) && (Filled(s) ==> Filled(Launch(s, k, c, now)))
  {
    NextIs(Launch(s, k, c, now).mols, k);
  }

  /** When the start succeeds, scheduling leaves the next molecule active and every one ready. */
  lemma {:induction false} ScheduleQuiet(s: State, r: Reason, now: nat)
    requires Wellformed(s) && Ready(s)
    ensures Schedule(s, r, now, 0).Ran? ==> Quiet(Schedule(s, r, now, 0).s)
    ensures Schedule(s, r, now, 0).Ran? && Filled(s) ==> Filled(Schedule(s, r, now, 0).s)
    decreases |s.mols|
  {
    match Next(s.mols)
    case None =>
    case Some(k) =>
      var s1 := Settle(s, k, r, now);
      match Reposition(s1.mols[k], now)
      case None =>
      case Some(c) =>
        ApproachReady(s, k, r, now, c);
        if !c.IsActive() {
          FewerLeft(s, k, r, now, c);
          ScheduleQuiet(Remove(Put(s1, k, c), k, Finished), r, now);
        } else {
          LaunchQuiet(Put(s1, k, c), k, c, now);
        }
  }

  // ---------- the discard command ----------

  /** The oldest molecule with the token at each priority from p up. */
  ghost function Victims(mols: map<nat, Mol>, token: string, p: nat): set<nat> {
    set k | k in mols && p <= mols[k].priority && IsVictim(mols, mols[k].priority, token, k)
  }

  lemma VictimsStep(mols: map<nat, Mol>, token: string, p: nat, k: nat)
    requires IsVictim(mols, p, token, k)
    ensures Victims(mols - {k}, token, p + 1) == Victims(mols, token, p) - {k}
  {
    var rest := mols - {k};
    forall j | j in rest && p + 1 <= rest[j].priority
      ensures IsVictim(rest, rest[j].priority, token, j) == IsVictim(mols, rest[j].priority, token, j)
    {
      assert forall i :: HasToken(rest, rest[j].priority, token, i) == HasToken(mols, rest[j].priority, token, i);
    }
    forall j | j in Victims(mols, token, p) && j != k
      ensures mols[j].priority >= p + 1
    {
      assert HasToken(mols, mols[j].priority, token, k) || mols[j].priority != p;
    }
  }

  lemma VictimsNone(mols: map<nat, Mol>, token: string, p: nat)
    requires Victim(mols, p, token) == None
    ensures Victims(mols, token, p) == Victims(mols, token, p + 1)
  {
    assert forall j :: j in mols && mols[j].priority == p ==> !HasToken(mols, p, token, j);
  }

  ghost predicate ActiveOnTop(s: State, victims: set<nat>)
  {
    && s.active.Some? && s.active.value in victims && s.active.value in s.mols
    && forall v :: v in victims && v in s.mols ==> s.mols[v].priority <= s.mols[s.active.value].priority
  }

  /** Discarding the oldest at priority p leaves the victims at higher priorities. */
  lemma VictimsOne(s: State, token: string, p: nat, k: nat)
    requires Wellformed(s) && IsVictim(s.mols, p, token, k)
    ensures k in Victims(s.mols, token, p)
    ensures forall v :: v in Victims(s.mols, token, p) && v != k ==> v in s.mols && s.mols[v].priority > p
    ensures Victims(Discard(s, k).0.mols, token, p + 1) == Victims(s.mols, token, p) - {k}
    ensures Discard(s, k).0.mols == s.mols - {k}
    ensures Discard(s, k).0.mols - (Victims(s.mols, token, p) - {k}) == s.mols - Victims(s.mols, token, p)
  {
    VictimsStep(s.mols, token, p, k);
  }

  /** If there are victims above priority p, the one at p does not decide the answer. */
  lemma TopOfRest(s: State, token: string, p: nat, k: nat)
    requires Wellformed(s) && IsVictim(s.mols, p, token, k)
    ensures var victims := Victims(s.mols, token, p);
            && k in victims && Victims(Discard(s, k).0.mols, token, p + 1) == victims - {k}
            && (victims - {k} != {} ==> (ActiveOnTop(s, victims) <==> ActiveOnTop(Discard(s, k).0, victims - {k})))
            && (victims - {k} == {} ==> (ActiveOnTop(s, victims) <==> s.active == Some(k)))
  {
    VictimsOne(s, token, p, k);
    var rest := Victims(s.mols, token, p) - {k};
    assert Victims(s.mols, token, p) == rest + {k};
    if v :| v in rest {
      assert s.mols[v].priority > s.mols[k].priority;
    }
  }

  lemma {:induction false} DiscardLevelsState(s: State, token: string, p: nat, res: DiscardResult)
    requires Wellformed(s) && p <= MAX_PRIORITY + 1
    ensures var s' := DiscardLevels(s, token, p, res).0;
            var victims := Victims(s.mols, token, p);
            && s'.mols == s.mols - victims && s'.enq == s.enq
            && s'.active == if s.active.Some? && s.active.value in victims then None else s.active
    decreases MAX_PRIORITY + 1 - p
  {
    if p > MAX_PRIORITY {
      assert Victims(s.mols, token, p) == {};
    } else if Victim(s.mols, p, token) == None {
      VictimsNone(s.mols, token, p);
      DiscardLevelsState(s, token, p + 1, res);
    } else {
      var k := Victim(s.mols, p, token).value;
      VictimsOne(s, token, p, k);
      DiscardLevelsState(Discard(s, k).0, token, p + 1, Discard(s, k).1);
    }
  }

  lemma {:induction false} DiscardLevelsResult(s: State, token: string, p: nat, res: DiscardResult)
    requires Wellformed(s) && p <= MAX_PRIORITY + 1
    ensures var victims := Victims(s.mols, token, p);
            DiscardLevels(s, token, p, res).1 ==
            if victims == {} then res else if ActiveOnTop(s, victims) then DiscardActive else DiscardInactive
    decreases MAX_PRIORITY + 1 - p
  {
    var victims := Victims(s.mols, token, p);
    if p > MAX_PRIORITY {
      assert victims == {};
    } else if Victim(s.mols, p, token) == None {
      VictimsNone(s.mols, token, p);
      DiscardLevelsResult(s, token, p + 1, res);
    } else {
      var k := Victim(s.mols, p, token).value;
      TopOfRest(s, token, p, k);
      DiscardLevelsResult(Discard(s, k).0, token, p + 1, Discard(s, k).1);
    }
  }

  /** What the discard command removes, and what it answers. */
  lemma DiscardLevelsEffect(s: State, token: string, p: nat, res: DiscardResult)
    requires Wellformed(s) && p <= MAX_PRIORITY + 1
    ensures var (s', res') := DiscardLevels(s, token, p, res);
            var victims := Victims(s.mols, token, p);
            && s'.mols == s.mols - victims && s'.enq == s.enq
            && s'.active == (if s.active.Some? && s.active.value in victims then None else s.active)
            && res' == if victims == {} then res else if ActiveOnTop(s, victims) then DiscardActive
                       else DiscardInactive
  {
    DiscardLevelsState(s, token, p, res);
    DiscardLevelsResult(s, token, p, res);
  }

  /**
   Discarding the token stalls the queue: the active molecule goes, but so does one above it, which
   has no atoms and hides that the active one went; and something playable is left.
   */
  ghost predicate Stalls(s: State, token: string)
  {
    var victims := Victims(s.mols, token, 0);
    && s.active.Some? && s.active.value in victims && s.active.value in s.mols
    && (exists v :: v in victims && v in s.mols && s.mols[v].priority > s.mols[s.active.value].priority)
    && (exists j :: j in s.mols && j !in victims && s.mols[j].Playable())
  }

  lemma MaskedDiscard(s: State, s1: State, token: string)
    requires Quiet(s) && s.active.Some? && s.active.value in Victims(s.mols, token, 0)
    requires !ActiveOnTop(s, Victims(s.mols, token, 0))
    requires s1.mols == s.mols - Victims(s.mols, token, 0) && s1.active == None
    ensures Stalls(s, token) <==> Next(s1.mols).Some?
  {
    var victims := Victims(s.mols, token, 0);
    if j :| j in s.mols && j !in victims && s.mols[j].Playable() {
      assert j in s1.mols && s1.mols[j].Playable();
    } else {
      assert forall j :: j in s1.mols ==> j in s.mols && j !in victims;
    }
  }

  /** The discard command leaves the right molecule active if and only if it does not stall. */
  lemma DiscardExact(s: State, e: Event)
    requires Quiet(s) && e.DiscardToken? && e.err == 0 && Step(s, e).Ran?
    ensures Ready(Step(s, e).s)
    ensures ActiveIsNext(Step(s, e).s) <==> !Stalls(s, e.token)
  {
    DiscardLevelsEffect(s, e.token, 0, DiscardNothing);
    var victims := Victims(s.mols, e.token, 0);
    var s1 := DiscardLevels(s, e.token, 0, DiscardNothing).0;
    if ActiveOnTop(s, victims) {
      ScheduleQuiet(s1, SchedInterrupt, e.now);
    } else if s.active.Some? && s.active.value !in victims {
      NextIs(s1.mols, s.active.value);
    } else if s.active.Some? {
      MaskedDiscard(s, s1, e.token);
    }
  }

  // ---------- events and runs ----------

  lemma PrepareReady(s: State, e: Event)
    requires Wellformed(s) && Ready(s)
    ensures Ready(Prepare(s, e).s)
  {
    if e.DiscardToken? {
      DiscardLevelsState(s, e.token, 0, DiscardNothing);
    }
  }

  lemma EnqueueQuiet(s: State, e: Event)
    requires Quiet(s) && e.Enqueue? && e.err == 0 && Step(s, e).Ran?
    ensures Quiet(Step(s, e).s)
  {
    var prep := Prepare(s, e);
    if prep.Call? {
      ScheduleQuiet(prep.s, prep.r, e.now);
    } else if prep.code == OK {
      NextIs(prep.s.mols, s.active.value);
    }
  }

  /** The start succeeds, and a discard command does not stall. */
  ghost predicate Smooth(s: State, e: Event) {
    e.err == 0 && (e.DiscardToken? ==> !Stalls(s, e.token))
  }

  lemma StepQuiet(s: State, e: Event)
    requires Quiet(s) && Smooth(s, e) && Step(s, e).Ran?
    ensures Quiet(Step(s, e).s)
  {
    if e.Enqueue? {
      EnqueueQuiet(s, e);
    } else if e.DiscardToken? {
      DiscardExact(s, e);
    } else if Prepare(s, e).Call? {
      ScheduleQuiet(Prepare(s, e).s, Prepare(s, e).r, e.now);
    }
  }

  ghost predicate SmoothRun(s: State, es: seq<Event>)
    requires Wellformed(s)
    decreases |es|
  {
    es != [] ==> Smooth(s, es[0]) && (Step(s, es[0]).Ran? ==> SmoothRun(Step(s, es[0]).s, es[1..]))
  }

  lemma {:induction false} RunQuiet(s: State, es: seq<Event>)
    requires Quiet(s) && SmoothRun(s, es)
    ensures Run(s, es).Ran? ==> Quiet(Run(s, es).s)
    decreases |es|
  {
    if es != [] && Step(s, es[0]).Ran? {
      StepQuiet(s, es[0]);
      RunQuiet(Step(s, es[0]).s, es[1..]);
    }
  }

  /** Every looping molecule the queue plays by the clock has a length. */
  ghost predicate Durable(s: State) {
    forall k :: k in s.mols && s.mols[k].mode.Cyclic() && s.mols[k].Playable() ==> Total(s.mols[k].atoms) > 0
  }

  /** The molecule that is next has a length if it is clocked, so it can be placed, and the queue stays durable. */
  lemma RoundDurable(s: State, k: nat, r: Reason, now: nat)
    requires Durable(s) && IsNext(s.mols, k)
    ensures var s1 := Settle(s, k, r, now);
            var c := Reposition(s1.mols[k], now);
            c.Some? && Durable(Put(s1, k, c.value))
  {
    var s1 := Settle(s, k, r, now);
    PrefixSame(s.mols[k].atoms, s1.mols[k].atoms, |s.mols[k].atoms|);
    RepositionDefined(s1.mols[k], now);
    RepositionFrame(s1.mols[k], now);
  }

  /** When starts succeed and clocked molecules have a length, scheduling never divides by zero. */
  lemma {:induction false} ScheduleDurable(s: State, r: Reason, now: nat)
    requires Durable(s)
    ensures Schedule(s, r, now, 0).Ran? && Durable(Schedule(s, r, now, 0).s)
    decreases |s.mols|
  {
    match Next(s.mols)
    case None =>
    case Some(k) =>
      RoundDurable(s, k, r, now);
      var s1 := Settle(s, k, r, now);
      var c := Reposition(s1.mols[k], now).value;
      if !c.IsActive() {
        FewerLeft(s, k, r, now, c);
        ScheduleDurable(Remove(Put(s1, k, c), k, Finished), r, now);
      }
  }

  /** The start succeeds, and an enqueued molecule has atoms. */
  predicate Audible(e: Event) {
    e.err == 0 && (e.Enqueue? ==> e.atoms != [])
  }

  /** Nothing hides the active molecule from the discard command when every molecule has atoms. */
  lemma FilledNeverStalls(s: State, token: string)
    requires Quiet(s) && Filled(s)
    ensures !Stalls(s, token)
  {
  }

  lemma PrepareFilled(s: State, e: Event)
    requires Wellformed(s) && Filled(s) && Audible(e)
    ensures Filled(Prepare(s, e).s)
  {
    if e.DiscardToken? {
      DiscardLevelsState(s, e.token, 0, DiscardNothing);
    }
  }

  lemma StepAudible(s: State, e: Event)
    requires Quiet(s) && Filled(s) && Audible(e)
    ensures Smooth(s, e)
    ensures Step(s, e).Ran? ==> Quiet(Step(s, e).s) && Filled(Step(s, e).s)
  {
    if e.DiscardToken? {
      FilledNeverStalls(s, e.token);
    }
    if Step(s, e).Ran? {
      StepQuiet(s, e);
      PrepareFilled(s, e);
      PrepareReady(s, e);
      var prep := Prepare(s, e);
      if prep.Call? {
        ScheduleQuiet(prep.s, prep.r, e.now);
      }
    }
  }

  /** An audible event in bounds; an enqueued molecule that is clocked has a length. */
  predicate Benign(e: Event) {
    Audible(e) && !Strays(e) && (e.Enqueue? && e.mode.Cyclic() ==> Total(e.atoms) > 0)
  }

  lemma StepBenign(s: State, e: Event)
    requires Quiet(s) && Filled(s) && Durable(s) && Benign(e)
    ensures Smooth(s, e) && Step(s, e).Ran?
    ensures Quiet(Step(s, e).s) && Filled(Step(s, e).s) && Durable(Step(s, e).s)
  {
    if e.DiscardToken? {
      DiscardLevelsState(s, e.token, 0, DiscardNothing);
    }
    var prep := Prepare(s, e);
    if prep.Call? {
      ScheduleDurable(prep.s, prep.r, e.now);
    }
    StepAudible(s, e);
  }

  lemma {:induction false} RunBenign(s: State, es: seq<Event>)
    requires Quiet(s) && Filled(s) && Durable(s)
    requires forall i :: 0 <= i < |es| ==> Benign(es[i])
    ensures SmoothRun(s, es) && Run(s, es).Ran?
    ensures Quiet(Run(s, es).s) && Filled(Run(s, es).s) && Durable(Run(s, es).s)
    decreases |es|
  {
    if es != [] {
      StepBenign(s, es[0]);
      RunBenign(Step(s, es[0]).s, es[1..]);
    }
  }

  /**
   Every run of benign events from the empty queue goes through, and at its end the active molecule
   is the oldest of the highest priority; it is absent only when nothing is queued.
   */
  lemma {:induction false} EveryBenignRun(es: seq<Event>)
    requires forall i :: 0 <= i < |es| ==> Benign(es[i])
    ensures Run(INITIAL, es).Ran?
    ensures var s := Run(INITIAL, es).s;
            && Quiet(s) && (s.active.None? <==> s.mols == map[])
            && forall k :: s.active == Some(k) ==>
                 forall j :: j in s.mols && j != k ==> Before(s.mols, k, j)
  {
    RunBenign(INITIAL, es);
  }
}
