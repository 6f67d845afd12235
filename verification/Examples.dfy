/**
 Runs that show where the queue does not do what one would expect of it.
 */
module Examples {

  import opened Options
  import opened Molecules
  import opened Scheduling
  import opened Playing
  import opened Phase

  const PLAIN := Mode(false, false, false, false, false, false, false)
  const PAUSED := PLAIN.(pause := true, loop := true)
  const MUTED := PLAIN.(mute := true, loop := true)

  /** One round of scheduling that starts molecule k. */
  lemma Starts(s: State, k: nat, r: Reason, now: nat, c: Mol)
    requires IsNext(s.mols, k) && Reposition(Settle(s, k, r, now).mols[k], now) == Some(c) && c.IsActive()
    ensures Schedule(s, r, now, 0) == Ran(Launch(Put(Settle(s, k, r, now), k, c), k, c, now), 0)
  {
    NextIs(s.mols, k);
  }

  /** A run with one more event at its end. */
  lemma {:induction false} Then(s: State, es: seq<Event>, s1: State, e: Event)
    requires Wellformed(s) && Run(s, es) == Ran(s1, OK)
    ensures Run(s, es + [e]) == match Step(s1, e)
                                case Trapped => Trapped
                                case Ran(s2, _) => Ran(s2, OK)
    decreases |es|
  {
    assert (es + [e])[0] == if es == [] then e else es[0];
    if es == [] {
      assert (es + [e])[1..] == [];
    } else {
      assert (es + [e])[1..] == es[1..] + [e];
      Then(Step(s, es[0]).s, es[1..], s1, e);
    }
  }

  // ---------- a paused loop that jumps ----------

  const LOOP := Mol("", 0, PAUSED, [Play(100, 0)], 0, 0, 0)
  const JINGLE := Mol("", 1, PLAIN, [Play(5, 0)], 0, 0, 0)

  function LoopAt(offset: nat, started: nat, stopped: nat): Mol {
    LOOP.(atoms := [Play(100, offset)], started := started, stopped := stopped)
  }

  lemma LoopPlaced(offset: nat, started: nat, stopped: nat, pos: nat)
    requires pos <= 100
    ensures var m := LoopAt(offset, started, stopped);
            Total(m.atoms) == 100 && Positioned(m, pos) == LoopAt(pos, started, stopped)
  {
    var m := LoopAt(offset, started, stopped);
    assert Prefix(m.atoms, 1) == Prefix(m.atoms, 0) + 100;
    assert Reach(m.atoms, pos, 0) == 0;
  }

  /** The loop plays, alone. */
  function Looping(enq: seq<Mol>, loop: Mol, log: seq<Act>): State {
    State(enq, map[0 := loop], Some(0), log)
  }

  /** The loop waits for a jingle enqueued and started at time t. */
  function Jingling(enq: seq<Mol>, loop: Mol, t: nat, log: seq<Act>): State {
    State(enq + [JINGLE], map[0 := loop, |enq| := JINGLE.(started := t)], Some(|enq|), log + [Started(|enq|, 0, 0)])
  }

  function Jingle(t: nat): Event {
    Event.Enqueue("", 1, PLAIN, [Play(5, 0)], t, 0)
  }

  /** The report of jingle n, which played from t to u. */
  function Ended(n: nat, t: nat, u: nat): Act {
    Done(n, JINGLE.(cur := 1, started := t, stopped := u), Finished)
  }

  lemma JinglePreempts(enq: seq<Mol>, m: Mol, t: nat, log: seq<Act>)
    requires enq != [] && m.Playable() && m.priority == 0 && !m.mode.discard
    ensures Step(Looping(enq, m, log), Jingle(t)) == Ran(Jingling(enq, m.(stopped := t), t, log), OK)
  {
    var s, n := Looping(enq, m, log), |enq|;
    var s1 := Prepare(s, Jingle(t)).s;
    assert s1.mols == map[0 := m.(stopped := t), n := JINGLE];
    Starts(s1, n, SchedInterrupt, t, JINGLE);
    assert Step(s, Jingle(t)).s.mols == Jingling(enq, m.(stopped := t), t, log).mols;
  }

  lemma JingleFinishes(enq: seq<Mol>, m: Mol, t: nat, u: nat, log: seq<Act>)
    requires enq != [] && m.Playable() && m.priority == 0
    ensures var s := Stopped(Jingling(enq, m, t, log), |enq|, u);
            var log' := log + [Started(|enq|, 0, 0)] + [Ended(|enq|, t, u)];
            Schedule(s, SchedEndOfFile, u, 0)
            == Schedule(State(enq + [JINGLE], map[0 := m], None, log'), SchedEndOfFile, u, 0)
  {
    var n := |enq|;
    var s := Stopped(Jingling(enq, m, t, log), n, u);
    assert IsNext(s.mols, n);
    NextIs(s.mols, n);
    var s1 := Settle(s, n, SchedEndOfFile, u);
    assert s1.mols[n] == JINGLE.(cur := 1, started := t, stopped := u);
    assert Remove(Put(s1, n, s1.mols[n]), n, Finished).mols == map[0 := m];
  }

  lemma LoopComesBack(enq: seq<Mol>, offset: nat, started: nat, t: nat, u: nat, log: seq<Act>)
    requires 0 < t < WORD && started <= t < started + 100
    ensures var s := State(enq, map[0 := LoopAt(offset, started, t)], None, log);
            Schedule(s, SchedEndOfFile, u, 0)
            == Ran(Looping(enq, LoopAt(t - started, u, t), log + [Started(0, 0, t - started)]), 0)
  {
    var s := State(enq, map[0 := LoopAt(offset, started, t)], None, log);
    LoopPlaced(offset, started, t, t - started);
    assert Minus(t, started) == t - started;
    var c := LoopAt(t - started, started, t);
    assert Reposition(s.mols[0], u) == Some(c);
    Starts(s, 0, SchedEndOfFile, u, c);
    assert Schedule(s, SchedEndOfFile, u, 0).s.mols == map[0 := LoopAt(t - started, u, t)];
  }

  /** A jingle that plays from t to u; the loop comes back at the time from its start to t. */
  lemma JingleRound(enq: seq<Mol>, offset: nat, started: nat, t: nat, u: nat, log: seq<Act>)
    requires enq != [] && 0 < t < WORD && started <= t < started + 100
    ensures Step(Jingling(enq, LoopAt(offset, started, t), t, log), EndOfFile(u, 0))
         == Ran(Looping(enq + [JINGLE], LoopAt(t - started, u, t),
                        log + [Started(|enq|, 0, 0)] + [Ended(|enq|, t, u)] + [Started(0, 0, t - started)]), OK)
  {
    var m := LoopAt(offset, started, t);
    JingleFinishes(enq, m, t, u, log);
    LoopComesBack(enq + [JINGLE], offset, started, t, u, log + [Started(|enq|, 0, 0)] + [Ended(|enq|, t, u)]);
  }

  const E1 := Enqueue("", 0, PAUSED, [Play(100, 0)], 1, 0)
  const E2 := Jingle(10)
  const E3 := EndOfFile(20, 0)
  const E4 := DiscardRange(0, 0, 25, 0)

  const S1 := Looping([LOOP], LoopAt(0, 1, 0), [Started(0, 0, 0)])
  const S2 := Jingling([LOOP], LoopAt(0, 1, 10), 10, S1.log)

  /** After the jingle the loop plays again from 9 ms on, where it was stopped; its start time is now 20. */
  const S3 := Looping([LOOP] + [JINGLE], LoopAt(9, 20, 10), S2.log + [Ended(1, 10, 20)] + [Started(0, 0, 9)])
  const S4 := Looping(S3.enq, LoopAt(6, 25, 10), S3.log + [Dropped({}), Started(0, 0, 6)])

  lemma LoopStarts()
    ensures Step(INITIAL, E1) == Ran(S1, OK)
  {
    LoopPlaced(0, 0, 0, 0);
    var s0 := Prepare(INITIAL, E1).s;
    assert s0.mols == map[0 := LOOP];
    Starts(s0, 0, SchedInterrupt, 1, LOOP);
  }

  lemma RangeMovesLoop()
    ensures Step(S3, E4) == Ran(S4, OK)
  {
    var s4 := Prepare(S3, E4).s;
    assert InRange(S3.mols, 0, 0) == {};
    assert s4.mols == S3.mols;
    LoopPlaced(9, 20, 10, 6);
    assert Minus(10, 20) == WORD - 10;
    var c := LoopAt(6, 20, 10);
    assert Reposition(s4.mols[0], 25) == Some(c);
    Starts(s4, 0, SchedInterrupt, 25, c);
    assert Step(S3, E4).s.log == S4.log;
    assert Step(S3, E4).s.mols == S4.mols;
  }

  const RUN1 := [] + [E1]
  const RUN2 := RUN1 + [E2]
  const RUN3 := RUN2 + [E3]

  lemma AfterStart()
    ensures Run(INITIAL, RUN1) == Ran(S1, OK)
  {
    LoopStarts();
    Then(INITIAL, [], INITIAL, E1);
  }

  lemma AfterInterrupt()
    ensures Run(INITIAL, RUN2) == Ran(S2, OK)
  {
    AfterStart();
    JinglePreempts([LOOP], LoopAt(0, 1, 0), 10, S1.log);
    Then(INITIAL, RUN1, S1, E2);
  }

  lemma AfterJingle()
    ensures Run(INITIAL, RUN3) == Ran(S3, OK)
  {
    AfterInterrupt();
    JingleRound([LOOP], 0, 1, 10, 20, S1.log);
    Then(INITIAL, RUN2, S2, E3);
  }

  /**
   Clearing an empty range of priorities makes the paused loop, which is at 14 ms, jump to 6 ms: it
   stopped before it last started, and the unsigned difference wraps around.
   */
  lemma PausedLoopJumps()
    ensures Run(INITIAL, [E1, E2, E3, E4]) == Ran(S4, OK)
    ensures S4.mols[0].stopped < S3.mols[0].started && Position(S4.mols[0]) == 6
  {
    AfterJingle();
    RangeMovesLoop();
    Then(INITIAL, RUN3, S3, E4);
    assert RUN3 + [E4] == [E1, E2, E3, E4];
    assert Prefix(S4.mols[0].atoms, 0) == 0;
  }

  const E5 := Jingle(30)
  const E6 := EndOfFile(35, 0)

  const S5 := Jingling(S3.enq, LoopAt(9, 20, 30), 30, S3.log)
  const S6 := Looping(S3.enq + [JINGLE], LoopAt(10, 35, 30), S5.log + [Ended(2, 30, 35)] + [Started(0, 0, 10)])

  const RUN5 := RUN3 + [E5]

  lemma AfterSecondInterrupt()
    ensures Run(INITIAL, RUN5) == Ran(S5, OK)
  {
    AfterJingle();
    JinglePreempts(S3.enq, LoopAt(9, 20, 10), 30, S3.log);
    Then(INITIAL, RUN3, S3, E5);
  }

  lemma AfterSecondJingle()
    ensures Run(INITIAL, RUN5 + [E6]) == Ran(S6, OK)
  {
    AfterSecondInterrupt();
    JingleRound(S3.enq, 9, 20, 30, 35, S3.log);
    Then(INITIAL, RUN5, S5, E6);
  }

  lemma LoopPosition(offset: nat, started: nat, stopped: nat)
    ensures Position(LoopAt(offset, started, stopped)) == offset
  {
    assert Prefix(LoopAt(offset, started, stopped).atoms, 0) == 0;
  }

  /**
   A second jingle at 30, when the loop is at 9 + 10 ms, makes it come back at 10 ms: the start time it
   is placed by is that of its return, which was not at its beginning.
   */
  lemma SecondPauseJumps()
    ensures Run(INITIAL, [E1, E2, E3, E5, E6]) == Ran(S6, OK)
    ensures Position(S3.mols[0]) + (30 - 20) == 19 && Position(S6.mols[0]) == 10
    ensures LaunchedAt(S3.mols[0], 20) && S3.mols[0].started <= S5.mols[0].stopped
  {
    AfterSecondJingle();
    assert RUN5 + [E6] == [E1, E2, E3, E5, E6];
    LoopPosition(9, 20, 10);
    LoopPosition(10, 35, 30);
  }

  // ---------- a recording that ends the process ----------

  const RECORDING := Mol("", 0, MUTED, [Record(false)], 0, 0, 0)

  const R1 := Enqueue("", 0, MUTED, [Record(false)], 1, 0)
  const R2 := EndOfFile(2, 0)
  const RECORDS := State([RECORDING], map[0 := RECORDING.(started := 1)], Some(0), [Started(0, 0, 0)])

  lemma RecordingStarts()
    ensures Step(INITIAL, R1) == Ran(RECORDS, OK)
  {
    var s0 := Prepare(INITIAL, R1).s;
    assert s0.mols == map[0 := RECORDING];
    assert Total(RECORDING.atoms) == Prefix(RECORDING.atoms, 0) + 0;
    assert Reach(RECORDING.atoms, 0, 0) == 0;
    assert Positioned(RECORDING, 0) == RECORDING;
    Starts(s0, 0, SchedInterrupt, 1, RECORDING);
    assert Step(INITIAL, R1).s.mols == RECORDS.mols;
  }

  lemma RecordingTraps()
    ensures Step(RECORDS, R2).Trapped?
  {
    var s := Prepare(RECORDS, R2).s;
    assert Total(RECORDING.atoms) == Prefix(RECORDING.atoms, 0) + 0;
    assert IsNext(s.mols, 0);
    NextIs(s.mols, 0);
  }

  /** A muted looping recording has no length: its first end of file divides by zero. */
  lemma LoopedRecordingTraps()
    ensures Run(INITIAL, [R1, R2]).Trapped?
  {
    RecordingStarts();
    Then(INITIAL, [], INITIAL, R1);
    RecordingTraps();
    Then(INITIAL, [] + [R1], RECORDS, R2);
    assert [] + [R1] + [R2] == [R1, R2];
  }

  // ---------- an empty molecule that hides a discard ----------

  const TUNE := Mol("t", 1, PLAIN, [Play(5, 0)], 0, 0, 0)
  const WAITING := Mol("u", 0, PLAIN, [Play(5, 0)], 0, 0, 0)
  const EMPTY := Mol("t", 2, PLAIN, [], 0, 0, 0)

  const D1 := Enqueue("t", 1, PLAIN, [Play(5, 0)], 3, 0)
  const D2 := Enqueue("u", 0, PLAIN, [Play(5, 0)], 3, 0)
  const D3 := Enqueue("t", 2, PLAIN, [], 4, 0)
  const D4 := DiscardToken("t", 5, 0)

  const T1 := State([TUNE], map[0 := TUNE.(started := 3)], Some(0), [Started(0, 0, 0)])
  const T2 := State([TUNE, WAITING], map[0 := TUNE.(started := 3), 1 := WAITING], Some(0), [Started(0, 0, 0)])
  const PUSHED := TUNE.(atoms := [Play(5, 1)], started := 4, stopped := 4)
  const T3 := State([TUNE, WAITING, EMPTY], map[0 := PUSHED, 1 := WAITING, 2 := EMPTY], Some(0),
                    [Started(0, 0, 0), Started(0, 0, 1)])

  lemma TuneAt(m: Mol)
    requires m.atoms == [Play(5, 0)]
    ensures Positioned(m, 1) == m.(cur := 0, atoms := [Play(5, 1)])
  {
    assert Prefix(m.atoms, 1) == Prefix(m.atoms, 0) + 5;
    assert Reach(m.atoms, 1, 0) == 0;
  }

  lemma TuneAndWaiting()
    ensures Step(INITIAL, D1) == Ran(T1, OK) && Step(T1, D2) == Ran(T2, OK)
  {
    var s0 := Prepare(INITIAL, D1).s;
    assert s0.mols == map[0 := TUNE];
    Starts(s0, 0, SchedInterrupt, 3, TUNE);
    assert Step(INITIAL, D1).s == T1;
    assert Step(T1, D2).s.mols == T2.mols;
  }

  const U3 := State(T3.enq, map[0 := TUNE.(started := 3, stopped := 4), 1 := WAITING, 2 := EMPTY], Some(0), T2.log)

  lemma EmptyPrepared()
    ensures Prepare(T2, D3) == Prep.Call(U3, SchedInterrupt)
  {
    assert Prepare(T2, D3).s.mols == U3.mols;
  }

  lemma TuneSettled()
    ensures Settle(U3, 0, SchedInterrupt, 4) == Put(U3, 0, PUSHED.(started := 3))
  {
    TuneAt(U3.mols[0]);
    assert Minus(4, 3) == 1;
  }

  lemma TuneLaunched()
    ensures var c := PUSHED.(started := 3);
            Launch(Put(Put(U3, 0, c), 0, c), 0, c, 4) == T3
  {
    var c := PUSHED.(started := 3);
    assert U3.mols[0 := c][0 := c][0 := PUSHED] == T3.mols;
  }

  lemma EmptyScheduled()
    ensures Schedule(U3, SchedInterrupt, 4, 0) == Ran(T3, 0)
  {
    assert IsNext(U3.mols, 0);
    TuneSettled();
    TuneLaunched();
    Starts(U3, 0, SchedInterrupt, 4, PUSHED.(started := 3));
  }

  lemma EmptyPushes()
    ensures Step(T2, D3) == Ran(T3, OK)
  {
    EmptyPrepared();
    EmptyScheduled();
  }

  const T4 := State(T3.enq, map[1 := WAITING], None, T3.log + [Done(0, PUSHED, Discarded), Dropped({2})])

  lemma Removes(s: State, k: nat, p: nat, token: string, res: DiscardResult)
    requires Wellformed(s) && p <= MAX_PRIORITY && IsVictim(s.mols, p, token, k)
    ensures DiscardLevels(s, token, p, res) == DiscardLevels(Discard(s, k).0, token, p + 1, Discard(s, k).1)
  {
    assert Victim(s.mols, p, token) == Some(k);
  }

  lemma HiddenDiscard()
    ensures DiscardLevels(T3, "t", 0, DiscardNothing) == (T4, DiscardInactive)
  {
    var u1 := Discard(T3, 0).0;
    assert u1.mols == map[1 := WAITING, 2 := EMPTY];
    assert DiscardLevels(T3, "t", 0, DiscardNothing) == DiscardLevels(T3, "t", 1, DiscardNothing);
    assert IsVictim(T3.mols, 1, "t", 0);
    Removes(T3, 0, 1, "t", DiscardNothing);
    assert IsVictim(u1.mols, 2, "t", 2);
    Removes(u1, 2, 2, "t", DiscardActive);
    var u2 := Discard(u1, 2).0;
    assert u2.mols == T4.mols && u2.log == T4.log;
    NothingLeft(u2, 3);
  }

  lemma Hidden()
    ensures Step(T3, D4) == Ran(T4, OK)
  {
    HiddenDiscard();
  }

  lemma NothingLeft(s: State, p: nat)
    requires s.mols == map[1 := WAITING] && 3 <= p <= MAX_PRIORITY + 1
    ensures DiscardLevels(s, "t", p, DiscardInactive) == (s, DiscardInactive)
    decreases MAX_PRIORITY + 1 - p
  {
    if p <= MAX_PRIORITY {
      NothingLeft(s, p + 1);
    }
  }

  const TRACK2 := [] + [D1] + [D2]
  const TRACK3 := TRACK2 + [D3]

  lemma AfterTwo()
    ensures Run(INITIAL, TRACK2) == Ran(T2, OK)
  {
    TuneAndWaiting();
    Then(INITIAL, [], INITIAL, D1);
    Then(INITIAL, [] + [D1], T1, D2);
  }

  lemma AfterThree()
    ensures Run(INITIAL, TRACK3) == Ran(T3, OK)
  {
    AfterTwo();
    EmptyPushes();
    Then(INITIAL, TRACK2, T2, D3);
  }

  /**
   An empty molecule with the token of the active one is queued above it. Discarding the token then
   leaves nothing active while a playable molecule waits; enqueueing the empty one had also made the
   active molecule skip 1 ms.
   */
  lemma DiscardStalls()
    ensures Run(INITIAL, [D1, D2, D3, D4]) == Ran(T4, OK)
    ensures T4.active == None && Next(T4.mols) == Some(1)
  {
    AfterThree();
    Hidden();
    Then(INITIAL, TRACK3, T3, D4);
    assert TRACK3 + [D4] == [D1, D2, D3, D4];
    assert IsNext(T4.mols, 1);
    NextIs(T4.mols, 1);
  }

  // ---------- an atom that takes the next one with it ----------

  const ALBUM := Mol("", 0, PLAIN, [Play(1, 0), Play(2, 0), Play(3, 0)], 0, 0, 0)
  const SINGLE := Mol("", 0, PLAIN, [Play(9, 0)], 0, 0, 0)

  const A1 := Enqueue("", 0, PLAIN, [Play(1, 0), Play(2, 0), Play(3, 0)], 1, 5)
  const A2 := Enqueue("", 0, PLAIN, [Play(9, 0)], 2, 0)

  const REST := ALBUM.(atoms := [Play(2, 0), Play(3, 0)], cur := 1)

  const F1 := State([ALBUM], map[0 := REST], None, [Failed(0, 0)])
  const F2 := State([ALBUM, SINGLE], map[0 := REST, 1 := SINGLE], Some(0), [Failed(0, 0), Started(0, 1, 0)])

  lemma FirstFails()
    ensures Step(INITIAL, A1) == Ran(F1, OK)
  {
    var s0 := Prepare(INITIAL, A1).s;
    assert s0.mols == map[0 := ALBUM];
    NextIs(s0.mols, 0);
    assert Broken(ALBUM) == REST;
    assert Step(INITIAL, A1).s.mols == F1.mols;
  }

  lemma SecondSkipped()
    ensures Step(F1, A2) == Ran(F2, OK)
  {
    var s1 := Prepare(F1, A2).s;
    assert s1.mols == map[0 := REST, 1 := SINGLE];
    Starts(s1, 0, SchedInterrupt, 2, REST);
    assert Step(F1, A2).s.mols == F2.mols;
  }

  /** The first of three atoms does not start; the next event starts the third. */
  lemma FailureSkipsAtom()
    ensures Run(INITIAL, [A1, A2]) == Ran(F2, OK)
    ensures F2.mols[0].atoms[1] == ALBUM.atoms[2] && F2.log == [Failed(0, 0), Started(0, 1, 0)]
  {
    FirstFails();
    Then(INITIAL, [], INITIAL, A1);
    SecondSkipped();
    Then(INITIAL, [] + [A1], F1, A2);
    assert [] + [A1] + [A2] == [A1, A2];
  }
}
