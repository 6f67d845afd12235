/**
 The priority queue of one call as a state machine. Queued molecules are a map from key to
 molecule, where the key is the number of molecules enqueued before; which molecule comes next
 is a property of that map, and `VQueue` computes it from its six lists.
 */
module Scheduling {

  import opened Options
  import opened Molecules

  const MAX_PRIORITY: nat := 5

  /** Response codes of the commands, with the values of POSIX errno. */
  const OK: nat := 0
  const ENOENT: nat := 2
  const EINVAL: nat := 22

  datatype Reason = SchedStart | SchedInterrupt | SchedDtmf | SchedEndOfFile

  datatype DiscardResult = DiscardNothing | DiscardInactive | DiscardActive

  datatype Cause = Finished | Discarded

  /** What happens to molecules: `Done` is reported to the world, `Dropped` is not. */
  datatype Act =
    | Started(key: nat, atom: nat, offset: nat)
    | Failed(key: nat, atom: nat)
    | Done(key: nat, m: Mol, cause: Cause)
    | Dropped(keys: set<nat>)

  /** `enq` is every molecule enqueued so far, as it was enqueued; its indices are the keys. */
  datatype State = State(enq: seq<Mol>, mols: map<nat, Mol>, active: Option<nat>, log: seq<Act>)

  const INITIAL: State := State([], map[], None, [])

  /** Trapped: the process divided by zero, or used a negative priority as an index of its lists. */
  datatype Outcome = Ran(s: State, code: nat) | Trapped

  /** Keys are enqueue numbers, priorities are in range, and the active molecule is queued. */
  predicate Wellformed(s: State) {
    && (forall k :: k in s.mols ==> k < |s.enq| && s.mols[k].priority <= MAX_PRIORITY)
    && (s.active.Some? ==> s.active.value in s.mols)
  }

  /** `now` is the clock in ms; `err` is what starting an atom returns, 0 for success. */
  datatype Event =
    | Enqueue(token: string, priority: int, mode: Mode, atoms: seq<Atom>, now: nat, err: nat)
    | EndOfFile(now: nat, err: nat)
    | DtmfBegin(now: nat, err: nat)
    | DiscardToken(token: string, now: nat, err: nat)
    | DiscardRange(prioFrom: int, prioTo: int, now: nat, err: nat)

  // ---------- which molecule is next ----------

  /** j comes before k: higher priority, or the same priority and enqueued earlier. */
  predicate Before(mols: map<nat, Mol>, j: nat, k: nat)
    requires j in mols && k in mols
  {
    mols[j].priority > mols[k].priority || (mols[j].priority == mols[k].priority && j < k)
  }

  /** k is the oldest playable molecule of the highest priority that has a playable one. */
  ghost predicate IsNext(mols: map<nat, Mol>, k: nat) {
    && k in mols && mols[k].Playable()
    && forall j :: j in mols && mols[j].Playable() && j != k ==> Before(mols, k, j)
  }

  lemma {:induction false} NextExists(mols: map<nat, Mol>, k: nat)
    requires k in mols && mols[k].Playable()
    ensures exists n :: IsNext(mols, n)
    decreases |mols|
  {
    if !IsNext(mols, k) {
      var j :| j in mols && mols[j].Playable() && j != k && !Before(mols, k, j);
      var rest := mols - {k};
      assert rest.Keys == mols.Keys - {k};
      NextExists(rest, j);
      var n :| IsNext(rest, n);
      assert Before(mols, n, k) by {
        assert n != j ==> Before(rest, n, j);
      }
      assert forall i :: i in mols && mols[i].Playable() && i != n && i != k ==> Before(rest, n, i);
      assert IsNext(mols, n);
    }
  }

  ghost function Next(mols: map<nat, Mol>): (r: Option<nat>)
    ensures r.Some? ==> IsNext(mols, r.value)
    ensures r.None? ==> forall k :: k in mols ==> !mols[k].Playable()
  {
    if k :| k in mols && mols[k].Playable() then
      NextExists(mols, k);
      var n :| IsNext(mols, n); Some(n)
    else None
  }

  lemma NextIs(mols: map<nat, Mol>, k: nat)
    requires IsNext(mols, k)
    ensures Next(mols) == Some(k)
  {
    assert IsNext(mols, Next(mols).value);
  }

  // ---------- schedule ----------

  /** m is reported done and is gone; nothing is active. */
  ghost function Remove(s: State, k: nat, cause: Cause): State
    requires k in s.mols
  {
    State(s.enq, s.mols - {k}, None, s.log + [Done(k, s.mols[k], cause)])
  }

  ghost function Put(s: State, k: nat, m: Mol): State {
    s.(mols := s.mols[k := m])
  }

  /** The active molecule is next again: it has ended an atom, or is interrupted by itself. */
  function AtStop(c: Mol, r: Reason, now: nat): (c': Mol)
    ensures c' == c.(cur := c'.cur, atoms := c'.atoms, stopped := c'.stopped)
    ensures SameAtoms(c.atoms, c'.atoms)
  {
    if r == SchedEndOfFile then
      var c' := c.(cur := c.cur + 1);
      if c'.IsActive() then c' else c'.(stopped := now)
    else Positioned(c.(stopped := now), Minus(now, c.started))
  }

  /** What becomes of the active molecule when k is about to be played. */
  ghost function Settle(s: State, k: nat, r: Reason, now: nat): (s': State)
    requires k in s.mols
    ensures k in s'.mols && s'.mols.Keys <= s.mols.Keys && s'.enq == s.enq
    ensures s'.active == None || s'.active == s.active
    ensures forall j :: j in s'.mols && j != k ==> s'.mols[j] == s.mols[j]
    ensures s'.mols[k] == s.mols[k].(cur := s'.mols[k].cur, atoms := s'.mols[k].atoms, stopped := s'.mols[k].stopped)
    ensures SameAtoms(s.mols[k].atoms, s'.mols[k].atoms)
    ensures Wellformed(s) ==> Wellformed(s')
  {
    if s.active.None? || s.active.value !in s.mols then s
    else
      var a := s.active.value;
      if s.mols[a].mode.discard && a != k then Remove(s, a, Discarded)
      else if a == k then Put(s, k, AtStop(s.mols[k], r, now))
      else s
  }

  /** The atom under the cursor of c starts. */
  ghost function Launch(s: State, k: nat, c: Mol, now: nat): State
    requires c.IsActive()
  {
    State(s.enq, s.mols[k := Begun(c, now)], Some(k), s.log + [Started(k, c.cur, c.atoms[c.cur].Offset())])
  }

  /** The atom under the cursor of c fails to start: it is erased, and the cursor advances. */
  ghost function FailStart(s: State, k: nat, c: Mol): State
    requires c.IsActive()
  {
    State(s.enq, s.mols[k := Broken(c)], s.active, s.log + [Failed(k, c.cur)])
  }

  ghost function Schedule(s: State, r: Reason, now: nat, err: nat): (o: Outcome)
    ensures Wellformed(s) && o.Ran? ==> Wellformed(o.s)
    decreases |s.mols|
  {
    match Next(s.mols)
    case None => Ran(s.(active := None), 0)
    case Some(k) =>
      var s1 := Settle(s, k, r, now);
      match Reposition(s1.mols[k], now)
      case None => Trapped
      case Some(c) =>
        var s2 := Put(s1, k, c);
        if !c.IsActive() then
          FewerLeft(s, k, r, now, c);
          Schedule(Remove(s2, k, Finished), r, now, err)
        else if err != 0 then Ran(FailStart(s2, k, c), err)
        else Ran(Launch(s2, k, c, now), 0)
  }

  /** Each recursive call of schedule has fewer queued molecules. */
  lemma FewerLeft(s: State, k: nat, r: Reason, now: nat, c: Mol)
    requires k in s.mols
    ensures |Remove(Put(Settle(s, k, r, now), k, c), k, Finished).mols| < |s.mols|
  {
    var s1 := Settle(s, k, r, now);
    assert s1.mols.Keys <= s.mols.Keys;
    KeysWithin(s1.mols.Keys, s.mols.Keys);
    assert |s1.mols.Keys| <= |s.mols.Keys|;
    assert Put(s1, k, c).mols.Keys == s1.mols.Keys;
    assert (Put(s1, k, c).mols - {k}).Keys == s1.mols.Keys - {k};
  }

  lemma {:induction false} KeysWithin(a: set<nat>, b: set<nat>)
    requires a <= b
    ensures |a| <= |b|
  {
    if x :| x in a {
      KeysWithin(a - {x}, b - {x});
    }
  }

  // ---------- discard ----------

  ghost predicate HasToken(mols: map<nat, Mol>, p: nat, token: string, k: nat) {
    k in mols && mols[k].priority == p && mols[k].token == token
  }

  /** k is the oldest molecule with the token at priority p. */
  ghost predicate IsVictim(mols: map<nat, Mol>, p: nat, token: string, k: nat) {
    HasToken(mols, p, token, k) && forall j :: HasToken(mols, p, token, j) ==> k <= j
  }

  lemma {:induction false} VictimExists(mols: map<nat, Mol>, p: nat, token: string, k: nat)
    requires HasToken(mols, p, token, k)
    ensures exists v :: IsVictim(mols, p, token, v)
    decreases k
  {
    if j: nat :| HasToken(mols, p, token, j) && j < k {
      VictimExists(mols, p, token, j);
    } else {
      assert IsVictim(mols, p, token, k);
    }
  }

  ghost function Victim(mols: map<nat, Mol>, p: nat, token: string): (r: Option<nat>)
    ensures r.Some? ==> IsVictim(mols, p, token, r.value)
    ensures r.None? ==> forall k :: !HasToken(mols, p, token, k)
  {
    if k :| HasToken(mols, p, token, k) then
      VictimExists(mols, p, token, k);
      var v :| IsVictim(mols, p, token, v); Some(v)
    else None
  }

  /** Molecules leave the queue without a report. */
  function Omit(s: State, keys: set<nat>): State {
    State(s.enq, s.mols - keys, s.active, s.log + [Dropped(keys)])
  }

  /** One molecule is discarded: reported if it is active, silent if it is not. */
  ghost function Discard(s: State, k: nat): (State, DiscardResult)
    requires k in s.mols
  {
    if s.active == Some(k) then (Remove(s, k, Discarded), DiscardActive)
    else (Omit(s, {k}), DiscardInactive)
  }

  /** At each priority from p up, the oldest molecule with the token is discarded. */
  ghost function DiscardLevels(s: State, token: string, p: nat, res: DiscardResult): (o: (State, DiscardResult))
    requires p <= MAX_PRIORITY + 1
    ensures Wellformed(s) ==> Wellformed(o.0)
    decreases MAX_PRIORITY + 1 - p
  {
    if p > MAX_PRIORITY then (s, res)
    else match Victim(s.mols, p, token)
      case None => DiscardLevels(s, token, p + 1, res)
      case Some(k) => var (s', res') := Discard(s, k); DiscardLevels(s', token, p + 1, res')
  }

  // ---------- events ----------

  /** What a handler does before it schedules: Call schedules, Reply does not, Stray leaves the lists. */
  datatype Prep = Call(s: State, r: Reason) | Reply(s: State, code: nat) | Stray(s: State)

  /** The command is accepted although it makes a negative priority an index of the lists. */
  predicate Strays(e: Event) {
    match e
    case Enqueue(token, priority, mode, atoms, now, err) => priority < 0
    case DiscardRange(prioFrom, prioTo, now, err) => prioFrom < 0 && prioFrom < prioTo <= MAX_PRIORITY
    case _ => false
  }

  function Fresh(e: Event): Mol
    requires e.Enqueue? && e.priority >= 0
  {
    Mol(e.token, e.priority, e.mode, e.atoms, 0, 0, 0)
  }

  function Push(s: State, m: Mol): State {
    s.(enq := s.enq + [m], mols := s.mols[|s.enq| := m])
  }

  function Stopped(s: State, k: nat, now: nat): State
    requires k in s.mols
  {
    s.(mols := s.mols[k := s.mols[k].(stopped := now)])
  }

  function InRange(mols: map<nat, Mol>, prioFrom: int, prioTo: int): set<nat> {
    set k | k in mols && prioFrom <= mols[k].priority < prioTo
  }

  predicate DtmfStops(m: Mol) {
    m.IsActive() && m.atoms[m.cur].Record? && m.atoms[m.cur].dtmfStop
  }

  /** m is queued, and plays at once if nothing plays, or something of lower priority. */
  function Admitted(s: State, m: Mol, now: nat): Prep
    requires Wellformed(s)
  {
    var s1 := Push(s, m);
    if s.active.None? then Call(s1, SchedInterrupt)
    else if s.mols[s.active.value].priority < m.priority then
      Call(Stopped(s1, s.active.value, now), SchedInterrupt)
    else Reply(s1, OK)
  }

  ghost function Prepare(s: State, e: Event): (o: Prep)
    requires Wellformed(s)
    ensures Wellformed(o.s)
    ensures o.Stray? <==> Strays(e)
  {
    if Strays(e) then Stray(s)
    else match e
    case Enqueue(token, priority, mode, atoms, now, err) =>
      if priority > MAX_PRIORITY then Reply(s, EINVAL)
      else Admitted(s, Fresh(e), now)
    case EndOfFile(now, err) =>
      if s.active.None? then Reply(s, OK)
      else Call(Stopped(s, s.active.value, now), SchedEndOfFile)
    case DtmfBegin(now, err) =>
      if s.active.Some? && DtmfStops(s.mols[s.active.value]) then Call(s, SchedEndOfFile)
      else Reply(s, OK)
    case DiscardToken(token, now, err) =>
      var (s1, res) := DiscardLevels(s, token, 0, DiscardNothing);
      if res == DiscardActive then Call(s1, SchedInterrupt)
      else Reply(s1, if res == DiscardNothing then ENOENT else OK)
    case DiscardRange(prioFrom, prioTo, now, err) =>
      if prioFrom > MAX_PRIORITY || prioTo > MAX_PRIORITY then Reply(s, EINVAL)
      else
        var gone := InRange(s.mols, prioFrom, prioTo);
        Call(Omit(s.(active := None), gone), SchedInterrupt)
  }

  ghost function Step(s: State, e: Event): (o: Outcome)
    requires Wellformed(s)
    ensures o.Ran? ==> Wellformed(o.s)
  {
    match Prepare(s, e)
    case Stray(_) => Trapped
    case Reply(s1, code) => Ran(s1, code)
    case Call(s1, r) =>
      match Schedule(s1, r, e.now, e.err)
      case Trapped => Trapped
      case Ran(s2, code) => Ran(s2, OK)
  }

  /** A run of events; Trapped if one of them ends the process. */
  ghost function Run(s: State, es: seq<Event>): (o: Outcome)
    requires Wellformed(s)
    ensures o.Ran? ==> Wellformed(o.s)
    decreases |es|
  {
    if es == [] then Ran(s, OK)
    else
      match Step(s, es[0])
      case Trapped => Trapped
      case Ran(s', code) => Run(s', es[1..])
  }
}
