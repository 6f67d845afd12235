/**
 What events record and answer, field by field: the molecule that an enqueue command queues, and
 where it starts; the answers; and the atom that a failed start takes away.
 */
module Requests {

  import opened Options
  import opened Molecules
  import opened Scheduling
  import opened Playing
  import opened Preemption
  import opened Commands
  import opened Failures

  // ---------- answers ----------

  /**
   The answers: EINVAL for priorities above 5, ENOENT for a token that no queued molecule has, and success
   otherwise, also if a start fails.
   */
  lemma AnswerExact(s: State, e: Event)
    requires Quiet(s) && Step(s, e).Ran?
    ensures Step(s, e).code
         == match e
            case Enqueue(_, priority, _, _, _, _) => if priority > 5 then 22 else 0
            case DiscardToken(token, _, _) => if exists k :: k in s.mols && s.mols[k].token == token then 0 else 2
            case DiscardRange(prioFrom, prioTo, _, _) => if prioFrom > 5 || prioTo > 5 then 22 else 0
            case _ => 0
  {
    if e.DiscardToken? {
      DiscardLevelsEffect(s, e.token, 0, DiscardNothing);
      SomeVictim(s, e.token);
    }
  }

  /** A refused command changes nothing, and neither does an end of file when nothing plays. */
  lemma NothingHappens(s: State, e: Event)
    requires Wellformed(s)
    requires match e
             case Enqueue(_, priority, _, _, _, _) => priority > 5
             case DiscardRange(prioFrom, prioTo, _, _) => prioFrom > 5 || prioTo > 5
             case EndOfFile(_, _) => s.active == None
             case DtmfBegin(_, _) => s.active == None
             case _ => false
    ensures Step(s, e).Ran? && Step(s, e).s == s
  {
  }

  // ---------- what is recorded ----------

  /** m is the molecule that e enqueues, not started and not stopped. */
  predicate Records(m: Mol, e: Event) {
    && e.Enqueue? && m.token == e.token && m.priority == e.priority && m.mode == e.mode && m.atoms == e.atoms
    && m.cur == 0 && m.started == 0 && m.stopped == 0
  }

  predicate IsAccepted(e: Event) {
    e.Enqueue? && 0 <= e.priority <= 5
  }

  lemma {:induction false} ScheduleRecords(s: State, r: Reason, now: nat, err: nat)
    ensures Schedule(s, r, now, err).Ran? ==> Schedule(s, r, now, err).s.enq == s.enq
    decreases |s.mols|
  {
    match Next(s.mols)
    case None =>
    case Some(k) =>
      var s1 := Settle(s, k, r, now);
      match Reposition(s1.mols[k], now)
      case None =>
      case Some(c) =>
        if !c.IsActive() {
          FewerLeft(s, k, r, now, c);
          ScheduleRecords(Remove(Put(s1, k, c), k, Finished), r, now, err);
        }
  }

  /** From enq to enq', the molecule of e is added if e is accepted, and nothing else. */
  predicate RecordsOne(enq: seq<Mol>, enq': seq<Mol>, e: Event) {
    if IsAccepted(e) then |enq'| == |enq| + 1 && enq'[..|enq|] == enq && Records(enq'[|enq|], e) else enq' == enq
  }

  /** An accepted enqueue command records its molecule behind all others; nothing else records anything. */
  lemma StepRecords(s: State, e: Event)
    requires Wellformed(s) && Step(s, e).Ran?
    ensures RecordsOne(s.enq, Step(s, e).s.enq, e)
  {
    if e.DiscardToken? {
      DiscardLevelsState(s, e.token, 0, DiscardNothing);
    }
    var prep := Prepare(s, e);
    if prep.Call? {
      ScheduleRecords(prep.s, prep.r, e.now, e.err);
    }
  }

  /** The accepted enqueue commands of a run, in order. */
  function Accepted(es: seq<Event>): seq<Event> {
    if es == [] then [] else (if IsAccepted(es[0]) then [es[0]] else []) + Accepted(es[1..])
  }

  /** From index `from` on, enq has the molecules of these commands, in order. */
  ghost predicate RecordsFrom(enq: seq<Mol>, from: nat, taken: seq<Event>) {
    |enq| == from + |taken| && forall i :: 0 <= i < |taken| ==> Records(enq[from + i], taken[i])
  }

  lemma RecordsMore(enq0: seq<Mol>, enq1: seq<Mol>, enq2: seq<Mol>, es: seq<Event>)
    requires es != [] && RecordsOne(enq0, enq1, es[0])
    requires RecordsFrom(enq2, |enq1|, Accepted(es[1..])) && enq2[..|enq1|] == enq1
    ensures RecordsFrom(enq2, |enq0|, Accepted(es)) && enq2[..|enq0|] == enq0
  {
    if IsAccepted(es[0]) {
      assert enq2[|enq0|] == enq2[..|enq1|][|enq0|];
      assert enq2[..|enq0|] == enq2[..|enq1|][..|enq0|];
    }
  }

  lemma {:induction false} RunRecords(s: State, es: seq<Event>)
    requires Wellformed(s) && Run(s, es).Ran?
    ensures var enq' := Run(s, es).s.enq;
            RecordsFrom(enq', |s.enq|, Accepted(es)) && enq'[..|s.enq|] == s.enq
    decreases |es|
  {
    if es != [] {
      StepRecords(s, es[0]);
      var s1 := Step(s, es[0]).s;
      RunRecords(s1, es[1..]);
      RecordsMore(s.enq, s1.enq, Run(s, es).s.enq, es);
    }
  }

  /** In every run, what was enqueued are the molecules of the accepted commands, in order. */
  lemma EveryRunRecords(es: seq<Event>)
    requires Run(INITIAL, es).Ran?
    ensures RecordsFrom(Run(INITIAL, es).s.enq, 0, Accepted(es))
  {
    RunRecords(INITIAL, es);
  }

  // ---------- where a new molecule starts ----------

  /** The same atom without an offset. */
  function FromBeginning(a: Atom): Atom {
    if a.Play? then Play(a.length, 0) else a
  }

  /**
   What e enqueues as it is when it starts at once: at its first atom with the offset it was enqueued with,
   unless it is a muted or paused loop, which is sent to its beginning.
   */
  predicate StartsAs(m: Mol, e: Event) {
    && e.Enqueue? && e.atoms != []
    && m.token == e.token && m.priority == e.priority && m.mode == e.mode
    && m.cur == 0 && m.started == e.now && m.stopped == 0
    && m.atoms == if e.mode.loop && (e.mode.mute || e.mode.pause) then [FromBeginning(e.atoms[0])] + e.atoms[1..]
                  else e.atoms
  }

  lemma FreshPlays(e: Event, s': State, n: nat)
    requires e.Enqueue? && e.priority >= 0 && e.atoms != [] && PlaysAgain(Fresh(e), e.now, s', n)
    ensures StartsAs(s'.mols[n], e)
  {
    assert Reach(e.atoms, 0, 0) == 0;
    assert e.atoms[0 := e.atoms[0].WithOffset(0)] == [FromBeginning(e.atoms[0])] + e.atoms[1..];
  }

  /** In an idle queue, a new molecule starts as it was enqueued. */
  lemma StartsWhenIdle(s: State, e: Event)
    requires Quiet(s) && s.active == None && e.Enqueue? && Audible(e) && 0 <= e.priority <= 5
    ensures Step(s, e).Ran? && |s.enq| in Step(s, e).s.mols && StartsAs(Step(s, e).s.mols[|s.enq|], e)
  {
    EnqueueIdle(s, e);
    FreshPlays(e, Step(s, e).s, |s.enq|);
  }

  /** So it does above the active molecule. */
  lemma StartsAbove(s: State, e: Event)
    requires Quiet(s) && s.active.Some? && e.Enqueue? && Audible(e)
    requires s.mols[s.active.value].priority < e.priority <= 5
    ensures Step(s, e).Ran? && |s.enq| in Step(s, e).s.mols && StartsAs(Step(s, e).s.mols[|s.enq|], e)
  {
    Preempt(s, e);
    FreshPlays(e, Step(s, e).s, |s.enq|);
  }

  /** Behind the active molecule, it is queued as it was enqueued. */
  lemma WaitsBehind(s: State, e: Event)
    requires Quiet(s) && s.active.Some? && e.Enqueue? && 0 <= e.priority <= s.mols[s.active.value].priority
    ensures Step(s, e).Ran? && |s.enq| in Step(s, e).s.mols && Records(Step(s, e).s.mols[|s.enq|], e)
    ensures Step(s, e).s.mols - {|s.enq|} == s.mols && Step(s, e).s.active == s.active && Step(s, e).s.log == s.log
  {
  }

  // ---------- an atom that does not start ----------

  /** m without atom i. */
  function Without(atoms: seq<Atom>, i: nat): seq<Atom>
    requires i < |atoms|
  {
    atoms[..i] + atoms[i + 1..]
  }

  /**
   If the next atom of the active molecule, which is no restarting, muted or paused loop, does not start, that
   atom is gone, the cursor is behind the one after it, and nothing else changes but the stop time.
   */
  lemma NextAtomFails(s: State, e: Event)
    requires Quiet(s) && e.EndOfFile? && e.err != 0 && s.active.Some?
    requires var m := s.mols[s.active.value]; !m.mode.Immortal() && m.cur + 1 < |m.atoms|
    ensures var a := s.active.value;
            var m := s.mols[a];
            && Step(s, e).Ran? && Step(s, e).s.active == Some(a) && Step(s, e).s.enq == s.enq
            && Step(s, e).s.mols
            == s.mols[a := m.(atoms := Without(m.atoms, m.cur + 1), cur := m.cur + 2, stopped := e.now)]
            && Step(s, e).s.log == s.log + [Failed(a, m.cur + 1)]
  {
    var a := s.active.value;
    var t := Stopped(s, a, e.now);
    assert IsNext(t.mols, a);
    NextIs(t.mols, a);
    var c := Settle(t, a, SchedEndOfFile, e.now).mols[a];
    RepositionFrame(c, e.now);
    FailsAt(t, a, SchedEndOfFile, e.now, e.err, c);
    assert Step(s, e).s.mols == s.mols[a := Step(s, e).s.mols[a]];
  }

  lemma FreshRest(e: Event, c: Mol)
    requires e.Enqueue? && e.priority >= 0 && e.atoms != [] && Reposition(Fresh(e), e.now) == Some(c) && c.cur == 0
    ensures c.IsActive() && c.atoms[..0] + c.atoms[1..] == e.atoms[1..] && c == Fresh(e).(atoms := c.atoms)
  {
    RepositionFrame(Fresh(e), e.now);
    assert Reach(e.atoms, 0, 0) == 0;
  }

  /** If the first atom of a new molecule does not start in an idle queue, the molecule is queued without it. */
  lemma FirstAtomFails(s: State, e: Event)
    requires Quiet(s) && s.active == None && e.Enqueue? && e.atoms != [] && e.err != 0 && 0 <= e.priority <= 5
    ensures var n := |s.enq|;
            && Step(s, e).Ran? && Step(s, e).s.active == None
            && Step(s, e).s.mols
            == s.mols[n := Mol(e.token, e.priority, e.mode, e.atoms[1..], 1, 0, 0)]
            && Step(s, e).s.log == s.log + [Failed(n, 0)]
  {
    var n := |s.enq|;
    var s1 := Push(s, Fresh(e));
    assert IsNext(s1.mols, n);
    NextIs(s1.mols, n);
    var c := FreshStarts(e);
    FailsAt(s1, n, SchedInterrupt, e.now, e.err, c);
    FreshRest(e, c);
    assert Step(s, e).s.mols == s.mols[n := Step(s, e).s.mols[n]];
  }
}
