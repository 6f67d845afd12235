/**
 What the caller hears when nothing more is enqueued: every remaining atom of every molecule, in
 order of priority, then of enqueueing, then of atoms, with each molecule reported after its last.
 */
module Drain {

  import opened Options
  import opened Molecules
  import opened Scheduling
  import opened Playing
  import opened Preemption

  datatype Cue = Sound(key: nat, atom: nat) | End(key: nat)

  /** The starts and reports of a history. */
  function Trace(log: seq<Act>): seq<Cue> {
    if log == [] then []
    else
      var a := log[|log| - 1];
      Trace(log[..|log| - 1]) + if a.Started? then [Sound(a.key, a.atom)] else if a.Done? then [End(a.key)] else []
  }

  lemma TraceAppended(log: seq<Act>, a: Act)
    ensures Trace(log + [a])
         == Trace(log) + if a.Started? then [Sound(a.key, a.atom)] else if a.Done? then [End(a.key)] else []
  {
    assert (log + [a])[..|log|] == log;
  }

  function Sounds(k: nat, i: nat, n: nat): seq<Cue>
    decreases n - i
  {
    if i >= n then [] else [Sound(k, i)] + Sounds(k, i + 1, n)
  }

  lemma FewerKeys(mols: map<nat, Mol>, k: nat)
    requires k in mols
    ensures |mols - {k}| < |mols|
  {
    assert (mols - {k}).Keys == mols.Keys - {k};
  }

  /** The keys of the playable molecules, next one first. */
  ghost function PlayOrder(mols: map<nat, Mol>): seq<nat>
    decreases |mols|
  {
    match Next(mols)
    case None => []
    case Some(k) => FewerKeys(mols, k); [k] + PlayOrder(mols - {k})
  }

  /** Molecule after molecule in play order, its atoms from the cursor on and then its end. */
  ghost function Script(mols: map<nat, Mol>): seq<Cue>
    decreases |mols|
  {
    match Next(mols)
    case None => []
    case Some(k) =>
      FewerKeys(mols, k);
      Sounds(k, mols[k].cur, |mols[k].atoms|) + [End(k)] + Script(mols - {k})
  }

  /** The number of atoms from the cursors on. */
  ghost function Left(mols: map<nat, Mol>): nat
    decreases |mols|
  {
    match Next(mols)
    case None => 0
    case Some(k) =>
      FewerKeys(mols, k);
      (if mols[k].IsActive() then |mols[k].atoms| - mols[k].cur else 0) + Left(mols - {k})
  }

  /** Play order is by priority, then by enqueueing, and it has every playable molecule once. */
  lemma {:induction false} PlayOrderSorted(mols: map<nat, Mol>)
    ensures var order := PlayOrder(mols);
            && (forall i :: 0 <= i < |order| ==> order[i] in mols && mols[order[i]].Playable())
            && (forall i, j :: 0 <= i < j < |order| ==> Before(mols, order[i], order[j]))
            && (forall k :: k in mols && mols[k].Playable() ==> k in order)
    decreases |mols|
  {
    if Next(mols).Some? {
      var k := Next(mols).value;
      FewerKeys(mols, k);
      var rest := mols - {k};
      PlayOrderSorted(rest);
      var later := PlayOrder(rest);
      assert forall i :: 0 <= i < |later| ==> later[i] in rest && rest[later[i]] == mols[later[i]];
      forall i, j | 0 <= i < j < |later| ensures Before(mols, later[i], later[j]) {
        assert Before(rest, later[i], later[j]);
      }
    }
  }

  function Ends(cues: seq<Cue>): seq<nat> {
    if cues == [] then [] else (if cues[0].End? then [cues[0].key] else []) + Ends(cues[1..])
  }

  lemma {:induction false} EndsAfterSounds(k: nat, i: nat, n: nat, rest: seq<Cue>)
    ensures Ends(Sounds(k, i, n) + rest) == Ends(rest)
    decreases n - i
  {
    if i < n {
      assert (Sounds(k, i, n) + rest)[1..] == Sounds(k, i + 1, n) + rest;
      EndsAfterSounds(k, i + 1, n, rest);
    } else {
      assert Sounds(k, i, n) + rest == rest;
    }
  }

  /** The molecules end in play order. */
  lemma {:induction false} ScriptEnds(mols: map<nat, Mol>)
    ensures Ends(Script(mols)) == PlayOrder(mols)
    decreases |mols|
  {
    if Next(mols).Some? {
      var k := Next(mols).value;
      FewerKeys(mols, k);
      ScriptEnds(mols - {k});
      var rest := [End(k)] + Script(mols - {k});
      assert Script(mols) == Sounds(k, mols[k].cur, |mols[k].atoms|) + rest;
      EndsAfterSounds(k, mols[k].cur, |mols[k].atoms|, rest);
      assert rest[1..] == Script(mols - {k});
    }
  }

  /** The two queues differ in times and offsets only. */
  ghost predicate Alike(a: map<nat, Mol>, b: map<nat, Mol>) {
    a.Keys == b.Keys
    && forall k :: k in a ==> a[k].priority == b[k].priority && a[k].cur == b[k].cur && |a[k].atoms| == |b[k].atoms|
  }

  lemma {:induction false} AlikeScript(a: map<nat, Mol>, b: map<nat, Mol>)
    requires Alike(a, b)
    ensures Next(a) == Next(b) && Script(a) == Script(b) && Left(a) == Left(b)
    decreases |a|
  {
    if Next(a).Some? {
      var k := Next(a).value;
      assert forall j :: j in b && b[j].Playable() ==> a[j].Playable();
      assert IsNext(b, k) by {
        forall j | j in b && b[j].Playable() && j != k ensures Before(b, k, j) {
          assert Before(a, k, j);
        }
      }
      NextIs(b, k);
      FewerKeys(a, k);
      FewerKeys(b, k);
      AlikeScript(a - {k}, b - {k});
    } else {
      assert forall k :: k in b ==> k in a && !a[k].Playable();
    }
  }

  /** What is still to come after the atom that is playing. */
  ghost function ToCome(mols: map<nat, Mol>): seq<Cue> {
    var script := Script(mols);
    if script == [] then [] else script[1..]
  }

  /** A queue that plays through: quiet, and with no molecule that is empty or loops. */
  ghost predicate Plain(s: State) {
    Quiet(s) && Filled(s) && forall k :: k in s.mols ==> !s.mols[k].mode.loop
  }

  lemma Regroup(x: Cue, xs: seq<Cue>, y: Cue, ys: seq<Cue>)
    ensures [x] + xs + [y] + ys == [x] + (xs + ([y] + ys))
    ensures ([x] + (xs + ([y] + ys)))[1..] == xs + ([y] + ys)
  {
  }

  /** The first cue of the script is the atom under the cursor of the next molecule. */
  lemma ScriptStarts(mols: map<nat, Mol>, k: nat)
    requires IsNext(mols, k) && mols[k].IsActive()
    ensures Script(mols) == [Sound(k, mols[k].cur)] + ToCome(mols)
    ensures ToCome(mols) == Sounds(k, mols[k].cur + 1, |mols[k].atoms|) + ([End(k)] + Script(mols - {k}))
  {
    NextIs(mols, k);
    var x, xs := Sound(k, mols[k].cur), Sounds(k, mols[k].cur + 1, |mols[k].atoms|);
    assert Sounds(k, mols[k].cur, |mols[k].atoms|) == [x] + xs;
    assert Script(mols) == [x] + xs + [End(k)] + Script(mols - {k});
    Regroup(x, xs, End(k), Script(mols - {k}));
  }

  lemma PlainRuns(s: State, e: Event)
    requires Plain(s) && e.EndOfFile? && e.err == 0
    ensures Step(s, e).Ran? && Plain(Step(s, e).s)
  {
    StepBenign(s, e);
    if s.active.Some? {
      EndOfFileLaw(s, e);
    }
  }

  lemma NextAtom(s: State, a: nat, now: nat)
    requires Plain(s) && s.active == Some(a) && AfterAtom(s, a, now).1
    ensures var s1 := AfterAtom(s, a, now).0;
            && IsNext(s1.mols, a) && s1.mols[a].IsActive()
            && Left(s1.mols) == Left(s.mols) - 1
            && [Sound(a, s1.mols[a].cur)] + ToCome(s1.mols) == ToCome(s.mols)
  {
    var s1 := AfterAtom(s, a, now).0;
    assert IsNext(s1.mols, a);
    NextIs(s1.mols, a);
    ScriptStarts(s.mols, a);
    ScriptStarts(s1.mols, a);
    assert s1.mols - {a} == s.mols - {a};
    assert Script(s1.mols) == Sounds(a, s1.mols[a].cur, |s1.mols[a].atoms|) + ([End(a)] + Script(s.mols - {a}));
  }

  /** The cues are neither lost nor reordered, and one atom fewer is left. */
  ghost predicate OneAtomOn(s: State, s': State) {
    && Left(s'.mols) == Left(s.mols) - 1
    && Trace(s'.log) + ToCome(s'.mols) == Trace(s.log) + ToCome(s.mols)
  }

  lemma DrainMore(s: State, s': State, a: nat, now: nat, offset: nat)
    requires Plain(s) && s.active == Some(a) && AfterAtom(s, a, now).1
    requires var s1 := AfterAtom(s, a, now).0;
             s' == s1.(log := s1.log + [Started(a, s1.mols[a].cur, offset)])
    ensures OneAtomOn(s, s')
  {
    NextAtom(s, a, now);
    TraceAppended(s.log, s'.log[|s.log|]);
    assert Trace(s'.log) == Trace(s.log) + [Sound(a, s'.mols[a].cur)];
  }

  lemma LastScript(mols: map<nat, Mol>, a: nat)
    requires IsNext(mols, a) && mols[a].cur + 1 == |mols[a].atoms|
    ensures ToCome(mols) == [End(a)] + Script(mols - {a})
    ensures Left(mols) == 1 + Left(mols - {a})
  {
    NextIs(mols, a);
    ScriptStarts(mols, a);
    assert Sounds(a, mols[a].cur + 1, |mols[a].atoms|) == [];
  }

  lemma DrainLast(s: State, s1: State, s': State, a: nat, act: Act)
    requires a in s.mols && ToCome(s.mols) == [End(a)] + Script(s1.mols) && Left(s.mols) == 1 + Left(s1.mols)
    requires act.Done? && act.key == a && s1.log == s.log + [act]
    requires Left(s'.mols) == Left(s1.mols)
    requires Trace(s'.log) + ToCome(s'.mols) == Trace(s1.log) + Script(s1.mols)
    ensures OneAtomOn(s, s')
  {
    TraceAppended(s.log, act);
    assert Trace(s.log) + ([End(a)] + Script(s1.mols)) == Trace(s.log) + [End(a)] + Script(s1.mols);
  }

  /** One end of file plays one cue of what is to come, or the last end. */
  lemma DrainStep(s: State, e: Event)
    requires Plain(s) && s.active.Some? && e.EndOfFile? && e.err == 0
    ensures Step(s, e).Ran? && Plain(Step(s, e).s) && OneAtomOn(s, Step(s, e).s)
  {
    PlainRuns(s, e);
    EndOfFileLaw(s, e);
    var a := s.active.value;
    var (s1, more) := AfterAtom(s, a, e.now);
    if more {
      DrainMore(s, Step(s, e).s, a, e.now, s1.mols[a].atoms[s1.mols[a].cur].Offset());
    } else {
      assert s1.mols == s.mols - {a};
      LastScript(s.mols, a);
      LastAtom(s1, Step(s, e).s, e.now);
      DrainLast(s, s1, Step(s, e).s, a, s1.log[|s.log|]);
    }
  }

  lemma LastAtom(s: State, s': State, now: nat)
    requires PlaysNext(s, s', now) && Plain(s') && forall k :: k in s.mols ==> !s.mols[k].mode.loop
    ensures Left(s'.mols) == Left(s.mols)
    ensures Trace(s'.log) + ToCome(s'.mols) == Trace(s.log) + Script(s.mols)
  {
    assert Alike(s.mols, s'.mols);
    AlikeScript(s.mols, s'.mols);
    if s'.active.Some? {
      var k := s'.active.value;
      ScriptStarts(s'.mols, k);
      TraceAppended(s.log, s'.log[|s.log|]);
      assert s'.log == s.log + [s'.log[|s.log|]];
    }
  }

  lemma LeftMeansActive(s: State)
    requires Plain(s)
    ensures Left(s.mols) == 0 <==> s.mols == map[]
    ensures s.mols == map[] <==> s.active == None
  {
  }

  /**
   As many ends of file as there are atoms left play every one of them in order and report every
   molecule once, and leave the queue empty.
   */
  lemma {:induction false} DrainAll(s: State, es: seq<Event>)
    requires Plain(s) && |es| == Left(s.mols)
    requires forall i :: 0 <= i < |es| ==> es[i].EndOfFile? && es[i].err == 0
    ensures Run(s, es).Ran?
    ensures var s' := Run(s, es).s;
            s'.mols == map[] && s'.active == None && Trace(s'.log) == Trace(s.log) + ToCome(s.mols)
    decreases |es|
  {
    LeftMeansActive(s);
    if es == [] {
      assert Script(s.mols) == [];
    } else {
      DrainStep(s, es[0]);
      DrainAll(Step(s, es[0]).s, es[1..]);
    }
  }
}
