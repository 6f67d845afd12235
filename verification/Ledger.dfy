/**
 What every run keeps, whether or not atoms start and molecules have atoms: no molecule is lost,
 reported twice, or reported while it is queued, and reports at one priority come in the order
 of enqueueing.
 */
module Ledger {

  import opened Options
  import opened Molecules
  import opened Scheduling

  /** How often molecule k was reported done. */
  function Dones(log: seq<Act>, k: nat): nat {
    if log == [] then 0
    else Dones(log[..|log| - 1], k) + if log[|log| - 1].Done? && log[|log| - 1].key == k then 1 else 0
  }

  /** How often molecule k was removed without a report. */
  function Drops(log: seq<Act>, k: nat): nat {
    if log == [] then 0
    else Drops(log[..|log| - 1], k) + if log[|log| - 1].Dropped? && k in log[|log| - 1].keys then 1 else 0
  }

  lemma Appended(log: seq<Act>, a: Act)
    ensures forall k :: Dones(log + [a], k) == Dones(log, k) + if a.Done? && a.key == k then 1 else 0
    ensures forall k :: Drops(log + [a], k) == Drops(log, k) + if a.Dropped? && k in a.keys then 1 else 0
  {
    assert (log + [a])[..|log|] == log;
  }

  /** Each enqueued molecule is queued, was reported, or was dropped: one of them, once. */
  ghost predicate Balanced(s: State) {
    forall k: nat {:trigger Dones(s.log, k)} ::
      Dones(s.log, k) + Drops(s.log, k) + (if k in s.mols then 1 else 0) == if k < |s.enq| then 1 else 0
  }

  /** The atoms of a are some of those of b, in the same order, but for their offsets. */
  predicate Among(a: seq<Atom>, b: seq<Atom>)
    decreases |b|
  {
    a == [] ||
    (b != [] &&
     var i, j := |a| - 1, |b| - 1;
     if a[i].Same(b[j]) then Among(a[..i], b[..j]) else Among(a, b[..j]))
  }

  /** Atom i of a is atom at[i] of b, but for its offset. */
  predicate Picks(a: seq<Atom>, b: seq<Atom>, at: seq<nat>) {
    && |at| == |a|
    && (forall i :: 0 <= i < |at| ==> at[i] < |b| && a[i].Same(b[at[i]]))
    && (forall i, j :: 0 <= i < j < |at| ==> at[i] < at[j])
  }

  lemma {:induction false} AmongPicks(a: seq<Atom>, b: seq<Atom>) returns (at: seq<nat>)
    requires Among(a, b)
    ensures Picks(a, b, at)
    decreases |b|
  {
    if a == [] {
      at := [];
    } else {
      var i, j := |a| - 1, |b| - 1;
      if a[i].Same(b[j]) {
        at := AmongPicks(a[..i], b[..j]);
        at := at + [j];
      } else {
        at := AmongPicks(a, b[..j]);
      }
    }
  }

  lemma {:induction false} AmongMore(a: seq<Atom>, b: seq<Atom>)
    requires b != [] && Among(a, b[..|b| - 1])
    ensures Among(a, b)
    decreases |b|, 1
  {
    if a != [] && a[|a| - 1].Same(b[|b| - 1]) {
      FewerAmong(a, b[..|b| - 1]);
    }
  }

  lemma {:induction false} FewerAmong(a: seq<Atom>, b: seq<Atom>)
    requires a != [] && Among(a, b)
    ensures Among(a[..|a| - 1], b)
    decreases |b|, 2
  {
    if !a[|a| - 1].Same(b[|b| - 1]) {
      FewerAmong(a, b[..|b| - 1]);
    }
    AmongMore(a[..|a| - 1], b);
  }

  lemma {:induction false} AmongAmong(a: seq<Atom>, b: seq<Atom>, c: seq<Atom>)
    requires Among(a, b) && Among(b, c)
    ensures Among(a, c)
    decreases |c|
  {
    if a != [] {
      var i, j, k := |a| - 1, |b| - 1, |c| - 1;
      if !b[j].Same(c[k]) {
        AmongAmong(a, b, c[..k]);
        AmongMore(a, c);
      } else if a[i].Same(b[j]) {
        AmongAmong(a[..i], b[..j], c[..k]);
      } else {
        AmongAmong(a, b[..j], c[..k]);
        AmongMore(a, c);
      }
    }
  }

  lemma {:induction false} SameAmong(a: seq<Atom>, b: seq<Atom>)
    requires SameAtoms(a, b)
    ensures Among(b, a)
    decreases |a|
  {
    if a != [] {
      SameAmong(a[..|a| - 1], b[..|b| - 1]);
    }
  }

  lemma {:induction false} ErasedAmong(a: seq<Atom>, i: nat)
    requires i < |a|
    ensures Among(a[..i] + a[i + 1..], a)
    decreases |a|
  {
    var j := |a| - 1;
    var rest := a[..i] + a[i + 1..];
    if i == j {
      SameAmong(a[..j], a[..j]);
      assert rest == a[..j];
      AmongMore(rest, a);
    } else {
      ErasedAmong(a[..j], i);
      assert rest[..j - 1] == a[..j][..i] + a[..j][i + 1..];
    }
  }

  /** m is what was enqueued as e, but for cursor, offsets and times, and atoms that failed. */
  predicate SameMold(e: Mol, m: Mol) {
    && e.token == m.token && e.priority == m.priority && e.mode == m.mode
    && Among(m.atoms, e.atoms)
  }

  /** Nothing but cursor, offsets and times of m changes. */
  lemma Repainted(m: Mol, m': Mol)
    requires SameAtoms(m.atoms, m'.atoms) && m' == m.(cur := m'.cur, atoms := m'.atoms, started := m'.started,
                                                     stopped := m'.stopped)
    ensures SameMold(m, m')
  {
    SameAmong(m.atoms, m'.atoms);
  }

  /** A queued molecule is what was enqueued but for its cursor, offsets and times, and atoms that failed. */
  ghost predicate Kept(s: State) {
    forall k :: k in s.mols ==> k < |s.enq| && SameMold(s.enq[k], s.mols[k])
  }

  /** Reports of one priority are in the order of enqueueing. */
  predicate Ordered(log: seq<Act>) {
    forall i, j :: 0 <= i < j < |log| && log[i].Done? && log[j].Done? && log[i].m.priority == log[j].m.priority
                   ==> log[i].key < log[j].key
  }

  /** k can still be reported. */
  predicate Reportable(s: State, k: nat) {
    k in s.mols && (s.mols[k].Playable() || s.active == Some(k))
  }

  /** What can still be reported was enqueued after everything reported at its priority. */
  ghost predicate Fenced(s: State) {
    forall i, k ::
      0 <= i < |s.log| && s.log[i].Done? && Reportable(s, k) && s.log[i].m.priority == s.mols[k].priority
      ==> s.log[i].key < k
  }

  /** The active molecule is no younger than any playable one of its priority. */
  ghost predicate ActiveOldest(s: State) {
    s.active.Some? && s.active.value in s.mols ==>
      forall k :: k in s.mols && s.mols[k].Playable() && s.mols[k].priority == s.mols[s.active.value].priority
                  ==> s.active.value <= k
  }

  /** A report is about a molecule as it was enqueued. */
  ghost predicate Truthful(s: State) {
    forall i :: 0 <= i < |s.log| && s.log[i].Done? ==>
      s.log[i].key < |s.enq| && SameMold(s.enq[s.log[i].key], s.log[i].m)
  }

  /** Only molecules past their last atom finish, and none that loops with restart, mute or pause. */
  ghost predicate NoEarlyFinish(log: seq<Act>) {
    forall i :: 0 <= i < |log| && log[i].Done? && log[i].cause == Finished
                ==> !log[i].m.IsActive() && !log[i].m.mode.Immortal()
  }

  ghost predicate Sound(s: State) {
    && Wellformed(s) && Balanced(s) && Kept(s) && Truthful(s)
    && Ordered(s.log) && Fenced(s) && ActiveOldest(s) && NoEarlyFinish(s.log)
  }

  // ---------- primitive changes ----------

  lemma PutSound(s: State, k: nat, m: Mol)
    requires Sound(s) && k in s.mols
    requires SameMold(s.mols[k], m)
    ensures Sound(Put(s, k, m))
  {
    AmongAmong(m.atoms, s.mols[k].atoms, s.enq[k].atoms);
  }

  lemma RemoveSound(s: State, k: nat, cause: Cause)
    requires Sound(s) && Reportable(s, k)
    requires forall j :: j in s.mols && s.mols[j].Playable() && s.mols[j].priority == s.mols[k].priority ==> k <= j
    requires cause == Finished ==> !s.mols[k].IsActive() && !s.mols[k].mode.Immortal()
    ensures Sound(Remove(s, k, cause))
  {
    RemoveBalanced(s, k, cause);
    RemoveOrdered(s, k, cause);
  }

  lemma RemoveBalanced(s: State, k: nat, cause: Cause)
    requires Wellformed(s) && Balanced(s) && k in s.mols
    ensures Wellformed(Remove(s, k, cause)) && Balanced(Remove(s, k, cause))
  {
    Appended(s.log, Done(k, s.mols[k], cause));
  }

  lemma RemoveOrdered(s: State, k: nat, cause: Cause)
    requires Ordered(s.log) && Fenced(s) && Reportable(s, k)
    requires forall j :: j in s.mols && s.mols[j].Playable() && s.mols[j].priority == s.mols[k].priority ==> k <= j
    ensures Ordered(Remove(s, k, cause).log) && Fenced(Remove(s, k, cause))
  {
  }

  lemma DropSound(s: State, keys: set<nat>)
    requires Sound(s) && keys <= s.mols.Keys
    requires s.active.Some? ==> s.active.value !in keys
    ensures Sound(State(s.enq, s.mols - keys, s.active, s.log + [Dropped(keys)]))
  {
    Appended(s.log, Dropped(keys));
  }

  lemma PushSound(s: State, m: Mol)
    requires Sound(s) && m.priority <= MAX_PRIORITY
    ensures Sound(Push(s, m))
  {
    Repainted(m, m);
  }

  lemma LogSound(s: State, a: Act)
    requires Sound(s) && (a.Started? || a.Failed?)
    ensures Sound(s.(log := s.log + [a]))
  {
    Appended(s.log, a);
  }

  lemma ActivateSound(s: State, active: Option<nat>)
    requires Sound(s)
    requires active.Some? ==> IsNext(s.mols, active.value)
    ensures Sound(s.(active := active))
  {
  }

  // ---------- schedule ----------

  lemma SettleSound(s: State, k: nat, r: Reason, now: nat)
    requires Sound(s) && IsNext(s.mols, k)
    ensures Sound(Settle(s, k, r, now))
    ensures IsNext(Settle(s, k, r, now).mols, k)
  {
    if s.active.Some? {
      var a := s.active.value;
      if s.mols[a].mode.discard && a != k {
        RemoveSound(s, a, Discarded);
      } else if a == k {
        Repainted(s.mols[k], Settle(s, k, r, now).mols[k]);
        PutSound(s, k, Settle(s, k, r, now).mols[k]);
      }
    }
  }

  lemma FinishSound(s: State, k: nat, now: nat, c: Mol)
    requires Sound(s) && IsNext(s.mols, k)
    requires Reposition(s.mols[k], now) == Some(c) && !c.IsActive()
    ensures Sound(Remove(Put(s, k, c), k, Finished))
  {
    RepositionFrame(s.mols[k], now);
    if c.mode.Immortal() {
      RepositionRevives(s.mols[k], now);
    }
    Repainted(s.mols[k], c);
    PutSound(s, k, c);
    RemoveSound(Put(s, k, c), k, Finished);
  }

  lemma FailSound(s: State, k: nat, c: Mol)
    requires Sound(s) && k in s.mols && c.IsActive() && SameMold(s.mols[k], c)
    ensures Sound(FailStart(s, k, c))
  {
    var c' := FailStart(s, k, c).mols[k];
    ErasedAmong(c.atoms, c.cur);
    AmongAmong(c'.atoms, c.atoms, s.mols[k].atoms);
    PutSound(s, k, c');
    LogSound(Put(s, k, c'), Failed(k, c.cur));
  }

  lemma LaunchSound(s: State, k: nat, c: Mol, now: nat)
    requires Sound(s) && IsNext(s.mols, k) && c.IsActive() && SameMold(s.mols[k], c)
    ensures Sound(Launch(s, k, c, now))
  {
    var c' := Launch(s, k, c, now).mols[k];
    PutSound(s, k, c');
    ActivateSound(Put(s, k, c'), Some(k));
    LogSound(Put(s, k, c').(active := Some(k)), Started(k, c.cur, c.atoms[c.cur].Offset()));
  }

  lemma PlaceSound(s: State, k: nat, now: nat, c: Mol)
    requires Sound(s) && IsNext(s.mols, k)
    requires Reposition(s.mols[k], now) == Some(c) && c.IsActive()
    ensures Sound(Put(s, k, c)) && IsNext(Put(s, k, c).mols, k) && SameMold(c, c)
  {
    RepositionFrame(s.mols[k], now);
    Repainted(s.mols[k], c);
    PutSound(s, k, c);
    Repainted(c, c);
  }

  lemma {:induction false} ScheduleSound(s: State, r: Reason, now: nat, err: nat)
    requires Sound(s)
    ensures Schedule(s, r, now, err).Ran? ==> Sound(Schedule(s, r, now, err).s)
    decreases |s.mols|
  {
    match Next(s.mols)
    case None => ActivateSound(s, None);
    case Some(k) =>
      SettleSound(s, k, r, now);
      var s1 := Settle(s, k, r, now);
      match Reposition(s1.mols[k], now)
      case None =>
      case Some(c) =>
        if !c.IsActive() {
          FinishSound(s1, k, now, c);
          FewerLeft(s, k, r, now, c);
          ScheduleSound(Remove(Put(s1, k, c), k, Finished), r, now, err);
        } else {
          PlaceSound(s1, k, now, c);
          if err != 0 {
            FailSound(Put(s1, k, c), k, c);
          } else {
            LaunchSound(Put(s1, k, c), k, c, now);
          }
        }
  }

  // ---------- events and runs ----------

  lemma DiscardSound(s: State, k: nat)
    requires Sound(s) && k in s.mols
    ensures Sound(Discard(s, k).0)
  {
    if s.active == Some(k) {
      RemoveSound(s, k, Discarded);
    } else {
      DropSound(s, {k});
    }
  }

  lemma {:induction false} DiscardLevelsSound(s: State, token: string, p: nat, res: DiscardResult)
    requires Sound(s) && p <= MAX_PRIORITY + 1
    ensures Sound(DiscardLevels(s, token, p, res).0)
    decreases MAX_PRIORITY + 1 - p
  {
    if p <= MAX_PRIORITY {
      match Victim(s.mols, p, token)
      case None => DiscardLevelsSound(s, token, p + 1, res);
      case Some(k) =>
        DiscardSound(s, k);
        DiscardLevelsSound(Discard(s, k).0, token, p + 1, Discard(s, k).1);
    }
  }

  lemma PrepareSound(s: State, e: Event)
    requires Sound(s)
    ensures Sound(Prepare(s, e).s)
  {
    match e
    case Enqueue(token, priority, mode, atoms, now, err) =>
      if 0 <= priority <= MAX_PRIORITY {
        PushSound(s, Fresh(e));
        var s1 := Push(s, Fresh(e));
        if s.active.Some? {
          Repainted(s1.mols[s.active.value], s1.mols[s.active.value].(stopped := now));
          PutSound(s1, s.active.value, s1.mols[s.active.value].(stopped := now));
        }
      }
    case EndOfFile(now, err) =>
      if s.active.Some? {
        Repainted(s.mols[s.active.value], s.mols[s.active.value].(stopped := now));
        PutSound(s, s.active.value, s.mols[s.active.value].(stopped := now));
      }
    case DtmfBegin(now, err) =>
    case DiscardToken(token, now, err) => DiscardLevelsSound(s, token, 0, DiscardNothing);
    case DiscardRange(prioFrom, prioTo, now, err) =>
      ActivateSound(s, None);
      DropSound(s.(active := None), InRange(s.mols, prioFrom, prioTo));
  }

  lemma StepSound(s: State, e: Event)
    requires Sound(s)
    ensures Step(s, e).Ran? ==> Sound(Step(s, e).s)
  {
    PrepareSound(s, e);
    var prep := Prepare(s, e);
    if prep.Call? {
      ScheduleSound(prep.s, prep.r, e.now, e.err);
    }
  }

  lemma {:induction false} RunSound(s: State, es: seq<Event>)
    requires Sound(s)
    ensures Run(s, es).Ran? ==> Sound(Run(s, es).s)
    decreases |es|
  {
    if es != [] {
      StepSound(s, es[0]);
      if Step(s, es[0]).Ran? {
        RunSound(Step(s, es[0]).s, es[1..]);
      }
    }
  }

  /** Every run from the empty queue, with failing starts and empty molecules. */
  lemma EveryRun(es: seq<Event>)
    requires Run(INITIAL, es).Ran?
    ensures Sound(Run(INITIAL, es).s)
  {
    RunSound(INITIAL, es);
  }

  /** The atoms a molecule is reported with are some of those it was enqueued with, in the same order. */
  lemma ReportedAtoms(es: seq<Event>, i: nat) returns (at: seq<nat>)
    requires Run(INITIAL, es).Ran? && i < |Run(INITIAL, es).s.log| && Run(INITIAL, es).s.log[i].Done?
    ensures var s := Run(INITIAL, es).s;
            && s.log[i].key < |s.enq| && s.log[i].key !in s.mols
            && Picks(s.log[i].m.atoms, s.enq[s.log[i].key].atoms, at)
  {
    EveryRun(es);
    var s := Run(INITIAL, es).s;
    DoneIsGone(s, i);
    at := AmongPicks(s.log[i].m.atoms, s.enq[s.log[i].key].atoms);
  }

  lemma {:induction false} DoneCounts(log: seq<Act>, i: nat)
    requires i < |log| && log[i].Done?
    ensures Dones(log, log[i].key) > 0
  {
    if i < |log| - 1 {
      DoneCounts(log[..|log| - 1], i);
    }
  }

  /** A molecule that was reported is not queued. */
  lemma DoneIsGone(s: State, i: nat)
    requires Sound(s) && i < |s.log| && s.log[i].Done?
    ensures s.log[i].key !in s.mols
  {
    DoneCounts(s.log, i);
  }

  lemma {:induction false} DoneIsCounted(log: seq<Act>, k: nat) returns (i: nat)
    requires Dones(log, k) > 0
    ensures i < |log| && log[i].Done? && log[i].key == k
  {
    i := |log| - 1;
    if !(log[i].Done? && log[i].key == k) {
      i := DoneIsCounted(log[..i], k);
    }
  }

  /** A molecule that loops with restart, mute or pause ends only by being discarded or cleared. */
  lemma ImmortalEnds(s: State, k: nat)
    requires Sound(s) && k < |s.enq| && s.enq[k].mode.Immortal() && k !in s.mols
    ensures Drops(s.log, k) == 1 || exists i :: 0 <= i < |s.log| && s.log[i].Done? && s.log[i].key == k
                                                 && s.log[i].cause == Discarded
  {
    assert Dones(s.log, k) + Drops(s.log, k) == 1;
    if Drops(s.log, k) == 0 {
      var i := DoneIsCounted(s.log, k);
    }
  }
}
