/**
 The queue of one call as the program keeps it: six lists of molecules and a reference to the active
 one. Every method leaves the state that `Scheduling` says, and keeps each list in the order of
 enqueueing.
 */
module VQueues {

  import opened Options
  import opened Molecules
  import opened Scheduling

  /** The messages sent for a history: one for each reported molecule that has a token. */
  function Messages(log: seq<Act>): seq<string> {
    if log == [] then []
    else
      var a := log[|log| - 1];
      Messages(log[..|log| - 1]) + if a.Done? && a.m.token != "" then [a.m.token] else []
  }

  lemma MessagesAppended(log: seq<Act>, a: Act)
    ensures Messages(log + [a]) == Messages(log) + if a.Done? && a.m.token != "" then [a.m.token] else []
  {
    assert (log + [a])[..|log|] == log;
  }

  /** Act i reports a molecule that has a token. */
  predicate Announces(log: seq<Act>, i: nat) {
    i < |log| && log[i].Done? && log[i].m.token != ""
  }

  /**
   The messages are the tokens of the reported molecules that have one, in the order of the reports:
   message i is for the report at at[i], and there is one for each.
   */
  lemma {:induction false} MessagesExact(log: seq<Act>) returns (at: seq<nat>)
    ensures |at| == |Messages(log)|
    ensures forall i :: 0 <= i < |at| ==> Announces(log, at[i]) && Messages(log)[i] == log[at[i]].m.token
    ensures forall i, j :: 0 <= i < j < |at| ==> at[i] < at[j]
    ensures forall k: nat :: Announces(log, k) ==> k in at
  {
    if log == [] {
      at := [];
    } else {
      var n := |log| - 1;
      var before := MessagesExact(log[..n]);
      at := before + if Announces(log, n) then [n] else [];
      assert forall k: nat :: k < n && Announces(log, k) ==> Announces(log[..n], k) && k in before;
    }
  }

  ghost predicate Keyed(queued: map<nat, Molecule>) {
    forall k :: k in queued ==> queued[k].key == k
  }

  /** A list of one priority: queued molecules in the order of enqueueing. */
  ghost predicate ListAt(list: seq<Molecule>, p: nat, queued: map<nat, Molecule>) {
    && (forall i :: 0 <= i < |list| ==>
          list[i].priority == p && list[i].key in queued && queued[list[i].key] == list[i])
    && (forall i, j :: 0 <= i < j < |list| ==> list[i].key < list[j].key)
  }

  /** Molecule k is in the list of its priority. */
  ghost predicate InList(levels: seq<seq<Molecule>>, queued: map<nat, Molecule>, k: nat)
    requires k in queued
  {
    queued[k].priority < |levels| && queued[k] in levels[queued[k].priority]
  }

  /** The lists hold the queued molecules, and nothing else. */
  ghost predicate Listed(levels: seq<seq<Molecule>>, queued: map<nat, Molecule>, count: nat) {
    && |levels| == MAX_PRIORITY + 1 && Keyed(queued)
    && (forall p {:trigger ListAt(levels[p], p, queued)} ::
          0 <= p <= MAX_PRIORITY ==> ListAt(levels[p], p, queued))
    && (forall k {:trigger InList(levels, queued, k)} :: k in queued ==> k < count && InList(levels, queued, k))
  }

  lemma Located(levels: seq<seq<Molecule>>, queued: map<nat, Molecule>, count: nat)
    requires Listed(levels, queued, count)
    ensures forall k :: k in queued ==>
              k < count && queued[k].priority <= MAX_PRIORITY && queued[k] in levels[queued[k].priority]
  {
    assert forall k :: k in queued ==> InList(levels, queued, k);
  }

  lemma EraseAt(list: seq<Molecule>, p: nat, queued: map<nat, Molecule>, i: nat)
    requires ListAt(list, p, queued) && i < |list|
    ensures ListAt(list[..i] + list[i + 1..], p, queued - {list[i].key})
    ensures forall m :: m in list && m != list[i] ==> m in list[..i] + list[i + 1..]
  {
    var list' := list[..i] + list[i + 1..];
    assert forall j :: 0 <= j < |list'| ==> list'[j] == list[if j < i then j else j + 1];
    forall m | m in list && m != list[i] ensures m in list' {
      var j :| 0 <= j < |list| && list[j] == m;
      assert list'[if j < i then j else j - 1] == m;
    }
  }

  lemma EraseListed(levels: seq<seq<Molecule>>, queued: map<nat, Molecule>, count: nat, p: nat, i: nat)
    requires Listed(levels, queued, count) && p <= MAX_PRIORITY && i < |levels[p]|
    ensures Listed(levels[p := levels[p][..i] + levels[p][i + 1..]], queued - {levels[p][i].key}, count)
  {
    Located(levels, queued, count);
    assert ListAt(levels[p], p, queued);
    EraseAt(levels[p], p, queued, i);
    var levels' := levels[p := levels[p][..i] + levels[p][i + 1..]];
    var queued' := queued - {levels[p][i].key};
    forall q | 0 <= q <= MAX_PRIORITY ensures ListAt(levels'[q], q, queued') {
      assert ListAt(levels[q], q, queued);
    }
  }

  lemma PushListed(levels: seq<seq<Molecule>>, queued: map<nat, Molecule>, count: nat, m: Molecule)
    requires Listed(levels, queued, count) && m.key == count && m.priority <= MAX_PRIORITY
    ensures Listed(levels[m.priority := levels[m.priority] + [m]], queued[count := m], count + 1)
  {
    Located(levels, queued, count);
    var levels' := levels[m.priority := levels[m.priority] + [m]];
    forall q | 0 <= q <= MAX_PRIORITY ensures ListAt(levels'[q], q, queued[count := m]) {
      assert ListAt(levels[q], q, queued);
    }
  }

  lemma ClearListed(levels: seq<seq<Molecule>>, queued: map<nat, Molecule>, count: nat, p: nat)
    requires Listed(levels, queued, count) && p <= MAX_PRIORITY
    ensures Listed(levels[p := []], map k | k in queued && queued[k].priority != p :: queued[k], count)
  {
    var queued' := map k | k in queued && queued[k].priority != p :: queued[k];
    Located(levels, queued, count);
    var levels' := levels[p := []];
    forall q | 0 <= q <= MAX_PRIORITY ensures ListAt(levels'[q], q, queued') {
      assert ListAt(levels[q], q, queued);
    }
  }

  /** a holds some of the molecules of b. */
  ghost predicate Within(a: map<nat, Molecule>, b: map<nat, Molecule>) {
    a.Keys <= b.Keys && forall k :: k in a ==> a[k] == b[k]
  }

  lemma Fewer(a: map<nat, Molecule>, b: map<nat, Molecule>, k: nat)
    requires a.Keys <= b.Keys && k in b && k !in a
    ensures |a| < |b|
  {
    KeysWithin(a.Keys, b.Keys - {k});
    assert |a.Keys| == |a|;
  }

  /** How one round of scheduling ends. */
  datatype Turn = Trap | Again(s: State) | End(s: State)

  ghost function Turned(s: State, k: nat, r: Reason, now: nat, err: nat): Turn
    requires k in s.mols
  {
    var s1 := Settle(s, k, r, now);
    match Reposition(s1.mols[k], now)
    case None => Trap
    case Some(c) =>
      var s2 := Put(s1, k, c);
      if !c.IsActive() then Again(Remove(s2, k, Finished))
      else if err != 0 then End(FailStart(s2, k, c))
      else End(Launch(s2, k, c, now))
  }

  /** Scheduling is rounds of the molecule that is next. */
  lemma Unfold(s: State, k: nat, r: Reason, now: nat, err: nat)
    requires IsNext(s.mols, k)
    ensures var t, o := Turned(s, k, r, now, err), Schedule(s, r, now, err);
            && (t.Trap? ==> o == Trapped)
            && (t.Again? ==> o == Schedule(t.s, r, now, err))
            && (t.End? ==> o == Ran(t.s, err))
  {
    NextIs(s.mols, k);
  }

  class VQueue {
    var levels: seq<seq<Molecule>>
    var active: Molecule?
    /** The tokens of the molecule_done messages sent to the world. */
    var sent: seq<string>

    /** The state of the queue, and the object of each queued molecule. */
    ghost var model: State
    ghost var queued: map<nat, Molecule>

    ghost predicate Valid()
      reads this, queued.Values
    {
      Listed(levels, queued, |model.enq|) && Synced()
    }

    /** Apart from the lists, the queue is in the state of the model. */
    ghost predicate Synced()
      reads this, queued.Values
    {
      && Keyed(queued) && Linked()
      && model.active == (if active == null then None else Some(active.key))
      && (active != null ==> Holds(active))
      && sent == Messages(model.log)
    }

    /** The model has the value of every queued molecule. */
    ghost predicate Linked()
      reads this, queued.Values
    {
      model.mols.Keys == queued.Keys && forall k :: k in queued ==> model.mols[k] == queued[k].Value()
    }

    /** m is queued. */
    ghost predicate Holds(m: Molecule)
      reads this
    {
      m.key in queued && queued[m.key] == m
    }

    /** The state of a valid queue is well-formed. */
    ghost function Now(): (s: State)
      reads this, queued.Values
      requires Valid()
      ensures Wellformed(s) && s == model
    {
      Located(levels, queued, |model.enq|);
      assert forall k :: k in model.mols ==> k in queued;
      model
    }

    constructor ()
      ensures Valid() && model == INITIAL && queued == map[]
    {
      levels := seq(MAX_PRIORITY + 1, _ => []);
      active := null;
      sent := [];
      queued := map[];
      model := INITIAL;
    }

    /** The oldest molecule with atoms of the highest priority that has one. */
    method Next() returns (m: Molecule?)
      requires Valid()
      ensures m == null ==> Scheduling.Next(model.mols) == None
      ensures m != null ==> Holds(m) && IsNext(model.mols, m.key)
    {
      Located(levels, queued, |model.enq|);
      for p := MAX_PRIORITY + 1 downto 0
        invariant forall k :: k in queued && queued[k].priority >= p ==> queued[k].atoms == []
      {
        assert ListAt(levels[p], p, queued);
        for i := 0 to |levels[p]|
          invariant forall j :: 0 <= j < i ==> levels[p][j].atoms == []
        {
          if levels[p][i].atoms != [] {
            m := levels[p][i];
            forall k | k in queued && queued[k].atoms != [] && k != m.key
              ensures Before(model.mols, m.key, k)
            {
              if queued[k].priority == p {
                var j :| 0 <= j < |levels[p]| && levels[p][j] == queued[k];
                assert i < j;
              }
            }
            return;
          }
        }
      }
      m := null;
    }

    /** The message that a molecule is done. */
    method MoleculeDone(m: Molecule)
      modifies this`sent
      ensures sent == old(sent) + if m.token != "" then [m.token] else []
    {
      if m.token != "" {
        sent := sent + [m.token];
      }
    }

    /** Takes m out of its list. */
    method Erase(m: Molecule)
      requires Listed(levels, queued, |model.enq|) && Holds(m)
      modifies this`levels, this`queued
      ensures Listed(levels, queued, |model.enq|)
      ensures queued == old(queued) - {m.key}
    {
      Located(levels, queued, |model.enq|);
      var p := m.priority;
      assert ListAt(levels[p], p, queued);
      for i := 0 to |levels[p]|
        invariant levels == old(levels) && queued == old(queued)
        invariant forall j :: 0 <= j < i ==> levels[p][j] != m
      {
        if m == levels[p][i] {
          EraseListed(levels, queued, |model.enq|, p, i);
          levels := levels[p := levels[p][..i] + levels[p][i + 1..]];
          queued := queued - {m.key};
          return;
        }
      }
      assert false;
    }

    /** Removes m, reports it, and leaves nothing active. */
    method Retire(m: Molecule, ghost cause: Cause)
      requires Valid() && Holds(m)
      modifies this`levels, this`queued, this`active, this`sent, this`model
      ensures Valid() && queued == old(queued) - {m.key}
      ensures model == Remove(old(model), m.key, cause)
    {
      Erase(m);
      MoleculeDone(m);
      active := null;
      MessagesAppended(model.log, Done(m.key, model.mols[m.key], cause));
      model := Remove(model, m.key, cause);
    }

    method Discard(m: Molecule) returns (result: DiscardResult)
      requires Valid() && Holds(m)
      modifies this`levels, this`queued, this`active, this`sent, this`model
      ensures Valid() && queued == old(queued) - {m.key}
      ensures (model, result) == Scheduling.Discard(old(model), m.key)
    {
      if m == active {
        Retire(m, Discarded);
        result := DiscardActive;
      } else {
        Erase(m);
        MessagesAppended(model.log, Dropped({m.key}));
        model := Omit(model, {m.key});
        result := DiscardInactive;
      }
    }

    /** The active molecule is next again. */
    method Stop(m: Molecule, r: Reason, now: nat)
      requires Synced() && Holds(m)
      modifies m, this`model
      ensures Synced() && model == Put(old(model), m.key, AtStop(old(model).mols[m.key], r, now))
    {
      if r == SchedEndOfFile {
        m.EndAtom(now);
      } else {
        m.Interrupt(now);
      }
      model := Put(model, m.key, m.Value());
    }

    /** What becomes of the active molecule when `m` is about to be played. */
    method Settle(m: Molecule, r: Reason, now: nat)
      requires Valid() && Holds(m)
      modifies this`levels, this`queued, this`active, this`sent, this`model, m
      ensures Valid() && Holds(m) && Within(queued, old(queued))
      ensures model == Scheduling.Settle(old(model), m.key, r, now)
    {
      if active != null {
        if active.mode.discard && active != m {
          var _ := Discard(active);
        } else if active == m {
          Stop(m, r, now);
        }
      }
    }

    /** Where a looping molecule is put; true if the process ends here. */
    method Place(m: Molecule, now: nat) returns (trapped: bool)
      requires Valid() && Holds(m)
      modifies m, this`model
      ensures var c := Reposition(old(model).mols[m.key], now);
              trapped == c.None? && (!trapped ==> Valid() && model == Put(old(model), m.key, c.value))
    {
      trapped := m.Relocate(now);
      model := Put(model, m.key, m.Value());
    }

    /** The atom under the cursor of m failed to start. */
    method Fail(m: Molecule)
      requires Synced() && Holds(m) && m.IsActive()
      modifies this`model, m
      ensures Synced() && model == FailStart(old(model), m.key, old(m.Value()))
    {
      MessagesAppended(model.log, Failed(m.key, m.current));
      model := FailStart(model, m.key, m.Value());
      m.DropAtom();
    }

    /** The atom under the cursor of m started. */
    method Activate(m: Molecule, now: nat)
      requires Synced() && Holds(m) && m.IsActive()
      modifies this`active, this`model, m
      ensures Synced() && model == Launch(old(model), m.key, old(m.Value()), now)
    {
      MessagesAppended(model.log, Started(m.key, m.current, m.atoms[m.current].Offset()));
      model := Launch(model, m.key, m.Value(), now);
      m.MarkStarted(now);
      active := m;
    }

    /** Starts the atom under the cursor of m, which returns err. */
    method Start(m: Molecule, now: nat, err: nat)
      requires Valid() && Holds(m) && m.IsActive()
      modifies this`active, this`model, m
      ensures Valid()
      ensures model == if err != 0 then FailStart(old(model), m.key, old(m.Value()))
                       else Launch(old(model), m.key, old(m.Value()), now)
    {
      if err != 0 {
        Fail(m);
      } else {
        Activate(m, now);
      }
    }

    /** What happens before m is played: to the active molecule, and to the position of m. */
    method Approach(m: Molecule, r: Reason, now: nat) returns (trapped: bool)
      requires Valid() && Holds(m)
      modifies this`levels, this`queued, this`active, this`sent, this`model, m
      ensures Within(queued, old(queued))
      ensures var s1 := Scheduling.Settle(old(model), m.key, r, now);
              var c := Reposition(s1.mols[m.key], now);
              && trapped == c.None?
              && (!trapped ==> Valid() && Holds(m) && m.Value() == c.value && model == Put(s1, m.key, c.value))
    {
      Settle(m, r, now);
      ghost var s1 := model;
      trapped := Place(m, now);
      if !trapped {
        assert model.mols[m.key] == m.Value();
      }
    }

    /** Starts the atom under the cursor of m, or removes m if there is none. */
    method Conclude(m: Molecule, now: nat, err: nat) returns (again: bool)
      requires Valid() && Holds(m)
      modifies this`levels, this`queued, this`active, this`sent, this`model, m
      ensures Valid() && Within(queued, old(queued)) && again == !old(m.IsActive())
      ensures if again then model == Remove(old(model), m.key, Finished) && m.key !in queued
              else model == if err != 0 then FailStart(old(model), m.key, old(m.Value()))
                            else Launch(old(model), m.key, old(m.Value()), now)
    {
      again := !m.IsActive();
      if again {
        Retire(m, Finished);
      } else {
        Start(m, now, err);
      }
    }

    /** One round of scheduling, in which m is next. */
    method Round(m: Molecule, r: Reason, now: nat, err: nat) returns (trapped: bool, again: bool)
      requires Valid() && Holds(m)
      modifies this`levels, this`queued, this`active, this`sent, this`model, m
      ensures Within(queued, old(queued))
      ensures var t := Turned(old(model), m.key, r, now, err);
              if trapped then t == Trap && !again
              else Valid() && if again then t == Again(model) && m.key !in queued else t == End(model)
    {
      again := false;
      trapped := Approach(m, r, now);
      if !trapped {
        again := Conclude(m, now, err);
      }
    }

    /** `trapped` is true if the process ends; otherwise `code` is what the last start returned. */
    method Schedule(r: Reason, now: nat, err: nat) returns (trapped: bool, code: nat)
      requires Valid()
      modifies this`levels, this`queued, this`active, this`sent, this`model, queued.Values
      ensures trapped == Scheduling.Schedule(old(model), r, now, err).Trapped?
      ensures !trapped ==> Valid() && Ran(model, code) == Scheduling.Schedule(old(model), r, now, err)
      ensures !trapped ==> Within(queued, old(queued))
      decreases |queued|
    {
      var current := Next();
      if current == null {
        active := null;
        model := model.(active := None);
        return false, 0;
      }
      ghost var was, before, k := model, queued, current.key;
      Unfold(was, k, r, now, err);
      var again;
      trapped, again := Round(current, r, now, err);
      code := err;
      if again {
        Fewer(queued, before, k);
        trapped, code := Schedule(r, now, err);
      }
    }

    // ---------- events ----------

    /** Puts m, which is new, at the end of its list. */
    method AddToList(m: Molecule)
      requires Valid() && m.key == |model.enq| && m.priority <= MAX_PRIORITY
      modifies this`levels, this`queued, this`model
      ensures Valid() && queued == old(queued)[m.key := m] && m.key !in old(queued)
      ensures model == Push(old(model), m.Value())
    {
      Located(levels, queued, |model.enq|);
      PushListed(levels, queued, |model.enq|, m);
      levels := levels[m.priority := levels[m.priority] + [m]];
      queued := queued[m.key := m];
      model := Push(model, m.Value());
    }

    method Append(token: string, priority: nat, mode: Mode, atoms: seq<Atom>)
      requires Valid() && priority <= MAX_PRIORITY
      modifies this`levels, this`queued, this`model
      ensures Valid() && queued.Keys == old(queued).Keys + {|old(model).enq|}
      ensures forall k :: k in old(queued) ==> queued[k] == old(queued)[k]
      ensures fresh(queued[|old(model).enq|])
      ensures model == Push(old(model), Mol(token, priority, mode, atoms, 0, 0, 0))
    {
      var m := new Molecule(|model.enq|, token, priority, mode, atoms);
      AddToList(m);
    }

    /** The active molecule stops now. */
    method MarkStopped(now: nat)
      requires Synced() && active != null
      modifies active`timeStopped, this`model
      ensures Synced() && model == Stopped(old(model), active.key, now)
    {
      active.timeStopped := now;
      model := Stopped(model, active.key, now);
    }

    /** The active molecule, if there is one, stops now, and what is next plays. */
    method Interrupt(now: nat, err: nat) returns (trapped: bool)
      requires Valid()
      modifies this`levels, this`queued, this`active, this`sent, this`model, queued.Values
      ensures var s := old(model);
              var s1 := if s.active.None? then s else Stopped(s, s.active.value, now);
              var o := Scheduling.Schedule(s1, SchedInterrupt, now, err);
              trapped == o.Trapped? && (!trapped ==> Valid() && model == o.s)
    {
      if active != null {
        MarkStopped(now);
      }
      var err';
      trapped, err' := Schedule(SchedInterrupt, now, err);
    }

    /** Enqueues a molecule; it plays at once if nothing plays, or something of lower priority. */
    method Admit(token: string, priority: nat, mode: Mode, atoms: seq<Atom>, now: nat, err: nat)
      returns (trapped: bool)
      requires Valid() && priority <= MAX_PRIORITY
      modifies this, queued.Values
      ensures var prep := Admitted(old(Now()), Mol(token, priority, mode, atoms, 0, 0, 0), now);
              if prep.Reply? then !trapped && Valid() && model == prep.s
              else var o := Scheduling.Schedule(prep.s, prep.r, now, err);
                   trapped == o.Trapped? && (!trapped ==> Valid() && model == o.s)
    {
      trapped := false;
      Append(token, priority, mode, atoms);
      if active == null || active.priority < priority {
        trapped := Interrupt(now, err);
      }
    }

    /** The enqueue command; `trapped` also if the priority is negative, which is not refused. */
    method Enqueue(token: string, priority: int, mode: Mode, atoms: seq<Atom>, now: nat, err: nat)
      returns (trapped: bool, code: nat)
      requires Valid()
      modifies this, queued.Values
      ensures var o := Step(old(Now()), Event.Enqueue(token, priority, mode, atoms, now, err));
              trapped == o.Trapped? && (!trapped ==> Valid() && o == Ran(Now(), code))
    {
      trapped, code := priority < 0, EINVAL;
      if 0 <= priority <= MAX_PRIORITY {
        trapped := Admit(token, priority, mode, atoms, now, err);
        code := OK;
      }
    }

    method EndOfFile(now: nat, err: nat) returns (trapped: bool)
      requires Valid()
      modifies this`levels, this`queued, this`active, this`sent, this`model, queued.Values
      ensures var o := Step(old(Now()), Event.EndOfFile(now, err));
              trapped == o.Trapped? && (!trapped ==> Valid() && o == Ran(Now(), OK))
    {
      trapped := false;
      if active != null {
        MarkStopped(now);
        var err';
        trapped, err' := Schedule(SchedEndOfFile, now, err);
      }
    }

    method DtmfBegin(now: nat, err: nat) returns (trapped: bool)
      requires Valid()
      modifies this`levels, this`queued, this`active, this`sent, this`model, queued.Values
      ensures var o := Step(old(Now()), Event.DtmfBegin(now, err));
              trapped == o.Trapped? && (!trapped ==> Valid() && o == Ran(Now(), OK))
    {
      trapped := false;
      if active != null && active.IsActive() {
        var a := active.atoms[active.current];
        if a.Record? && a.dtmfStop {
          var err';
          trapped, err' := Schedule(SchedEndOfFile, now, err);
        }
      }
    }

    /** The first molecule with the token in the list of priority p. */
    method Find(p: nat, token: string) returns (m: Molecule?)
      requires Valid() && p <= MAX_PRIORITY
      ensures m == null ==> Victim(model.mols, p, token) == None
      ensures m != null ==> Holds(m) && Victim(model.mols, p, token) == Some(m.key)
    {
      Located(levels, queued, |model.enq|);
      assert ListAt(levels[p], p, queued);
      for i := 0 to |levels[p]|
        invariant forall j :: 0 <= j < i ==> levels[p][j].token != token
      {
        if levels[p][i].token == token {
          m := levels[p][i];
          forall k | HasToken(model.mols, p, token, k) ensures m.key <= k {
            var j :| 0 <= j < |levels[p]| && levels[p][j] == queued[k];
            assert i <= j;
          }
          assert IsVictim(model.mols, p, token, m.key);
          return;
        }
      }
      m := null;
    }

    method DiscardToken(token: string, now: nat, err: nat) returns (trapped: bool, code: nat)
      requires Valid()
      modifies this`levels, this`queued, this`active, this`sent, this`model, queued.Values
      ensures var o := Step(old(Now()), Event.DiscardToken(token, now, err));
              trapped == o.Trapped? && (!trapped ==> Valid() && o == Ran(Now(), code))
    {
      var result := DiscardNothing;
      for p := 0 to MAX_PRIORITY + 1
        invariant Valid() && Within(queued, old(queued))
        invariant DiscardLevels(old(model), token, 0, DiscardNothing) == DiscardLevels(model, token, p, result)
      {
        var m := Find(p, token);
        if m != null {
          result := Discard(m);
        }
      }
      trapped, code := false, if result == DiscardNothing then ENOENT else OK;
      if result == DiscardActive {
        var err';
        trapped, err' := Schedule(SchedInterrupt, now, err);
      }
    }

    method DiscardRange(prioFrom: int, prioTo: int, now: nat, err: nat) returns (trapped: bool, code: nat)
      requires Valid()
      modifies this`levels, this`queued, this`active, this`sent, this`model, queued.Values
      ensures var o := Step(old(Now()), Event.DiscardRange(prioFrom, prioTo, now, err));
              trapped == o.Trapped? && (!trapped ==> Valid() && o == Ran(Now(), code))
    {
      if prioFrom > MAX_PRIORITY || prioTo > MAX_PRIORITY {
        return false, EINVAL;
      }
      if prioFrom < 0 && prioFrom < prioTo {
        return true, OK;
      }
      ClearLevels(prioFrom, prioTo);
      var err';
      trapped, err' := Schedule(SchedInterrupt, now, err);
      code := OK;
    }

    /** Empties the lists from prioFrom to below prioTo; nothing is active, and nothing is reported. */
    method ClearLevels(prioFrom: int, prioTo: int)
      requires Valid() && prioTo <= MAX_PRIORITY && (prioFrom < prioTo ==> prioFrom >= 0)
      modifies this`levels, this`queued, this`active, this`model
      ensures Valid() && Within(queued, old(queued))
      ensures model == Omit(old(model).(active := None), InRange(old(model).mols, prioFrom, prioTo))
    {
      ghost var gone := InRange(model.mols, prioFrom, prioTo);
      active := null;
      ClearLists(prioFrom, prioTo);
      MessagesAppended(model.log, Dropped(gone));
      model := Omit(model.(active := None), gone);
    }

    method ClearLists(prioFrom: int, prioTo: int)
      requires Listed(levels, queued, |model.enq|) && prioTo <= MAX_PRIORITY
      requires prioFrom < prioTo ==> prioFrom >= 0
      modifies this`levels, this`queued
      ensures Listed(levels, queued, |model.enq|) && Within(queued, old(queued))
      ensures forall k :: k in old(queued) ==> (k in queued <==> !(prioFrom <= old(queued)[k].priority < prioTo))
    {
      var p := prioFrom;
      while p < prioTo
        invariant prioFrom <= p && (p <= prioTo || p == prioFrom)
        invariant Listed(levels, queued, |model.enq|) && Within(queued, old(queued))
        invariant forall k :: k in old(queued) ==> (k in queued <==> !(prioFrom <= old(queued)[k].priority < p))
      {
        ClearListed(levels, queued, |model.enq|, p);
        levels := levels[p := []];
        queued := map k | k in queued && queued[k].priority != p :: queued[k];
        p := p + 1;
      }
    }
  }
}
