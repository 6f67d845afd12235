/**
 Calls from their arrival to their end: which are pending, which have a session, and what is sent
 when a session ends. A session is moved twice while it is made, and hangs up when it is destroyed.
 */
module Calls {

  import opened Options

  const EINVAL: nat := 22

  /** A hangup of the call itself, and the message that it is closed. */
  datatype Out = Hungup(id: string, code: int) | Closed(id: string, code: int)

  /** `answers` are the ids of the calls answered successfully, in order. */
  datatype State = State(pending: set<string>, live: set<string>, answers: seq<string>, out: seq<Out>)

  const INITIAL := State({}, {}, [], [])

  /** `order` is the order in which the table of sessions is visited. */
  datatype Event =
    | Incoming(id: string)
    | Answer(id: string, err: nat)
    | Hangup(id: string, code: int)
    | CallClosed(id: string)
    | Disconnected(order: seq<string>)

  function Ending(id: string, code: int): seq<Out> {
    [Hungup(id, code), Closed(id, code)]
  }

  function Endings(order: seq<string>, code: int): seq<Out> {
    if order == [] then [] else Endings(order[..|order| - 1], code) + Ending(order[|order| - 1], code)
  }

  /** order has every member of ids once. */
  predicate IsOrder(order: seq<string>, ids: set<string>) {
    && (forall i, j :: 0 <= i < j < |order| ==> order[i] != order[j])
    && (forall i :: 0 <= i < |order| ==> order[i] in ids)
    && (forall id :: id in ids ==> id in order)
  }

  lemma OrderGrows(order: seq<string>, ids: set<string>, id: string)
    requires IsOrder(order, ids) && id !in ids
    ensures IsOrder(order + [id], ids + {id})
  {
  }

  lemma EndingsGrow(order: seq<string>, id: string, code: int)
    ensures Endings(order + [id], code) == Endings(order, code) + Ending(id, code)
  {
    assert (order + [id])[..|order|] == order;
  }

  predicate Possible(s: State, e: Event) {
    e.Disconnected? ==> IsOrder(e.order, s.live)
  }

  function Step(s: State, e: Event): State {
    match e
    case Incoming(id) => s.(pending := s.pending + {id})
    case Answer(id, err) =>
      if id !in s.pending then s
      else if err != 0 then s.(pending := s.pending - {id})
      else if id in s.live then
        State(s.pending - {id}, s.live, s.answers + [id], s.out + Ending(id, 200))
      else State(s.pending - {id}, s.live + {id}, s.answers + [id], s.out)
    case Hangup(id, code) =>
      if id in s.live then s.(live := s.live - {id}, out := s.out + Ending(id, code))
      else if id in s.pending then s.(out := s.out + [Hungup(id, code)])
      else s
    case CallClosed(id) =>
      if id in s.live then s.(live := s.live - {id}, out := s.out + Ending(id, 200))
      else s.(pending := s.pending - {id})
    case Disconnected(order) => s.(live := {}, out := s.out + Endings(order, 500))
  }

  predicate PossibleRun(s: State, es: seq<Event>)
    decreases |es|
  {
    es != [] ==> Possible(s, es[0]) && PossibleRun(Step(s, es[0]), es[1..])
  }

  function Run(s: State, es: seq<Event>): State
    decreases |es|
  {
    if es == [] then s else Run(Step(s, es[0]), es[1..])
  }

  // ---------- what every run keeps ----------

  function Closings(out: seq<Out>, id: string): nat {
    if out == [] then 0
    else Closings(out[..|out| - 1], id) + if out[|out| - 1].Closed? && out[|out| - 1].id == id then 1 else 0
  }

  function Answers(answers: seq<string>, id: string): nat {
    if answers == [] then 0
    else Answers(answers[..|answers| - 1], id) + if answers[|answers| - 1] == id then 1 else 0
  }

  /** Each time a call was answered, it was closed once since, or it is live now. */
  ghost predicate Balanced(s: State) {
    forall id {:trigger Closings(s.out, id)} ::
      Closings(s.out, id) + (if id in s.live then 1 else 0) == Answers(s.answers, id)
  }

  lemma OneMore(out: seq<Out>, o: Out)
    ensures forall id :: Closings(out + [o], id) == Closings(out, id) + if o.Closed? && o.id == id then 1 else 0
  {
    assert (out + [o])[..|out|] == out;
  }

  lemma OneEnding(out: seq<Out>, ended: string, code: int)
    ensures forall id :: Closings(out + Ending(ended, code), id) == Closings(out, id) + if id == ended then 1 else 0
  {
    OneMore(out, Hungup(ended, code));
    OneMore(out + [Hungup(ended, code)], Closed(ended, code));
    assert out + Ending(ended, code) == out + [Hungup(ended, code)] + [Closed(ended, code)];
  }

  lemma OneAnswer(answers: seq<string>, answered: string)
    ensures forall id :: Answers(answers + [answered], id) == Answers(answers, id) + if id == answered then 1 else 0
  {
    assert (answers + [answered])[..|answers|] == answers;
  }

  lemma {:induction false} AllEndings(out: seq<Out>, order: seq<string>, code: int)
    requires forall i, j :: 0 <= i < j < |order| ==> order[i] != order[j]
    ensures forall id :: Closings(out + Endings(order, code), id) == Closings(out, id) + if id in order then 1 else 0
    decreases |order|
  {
    if order == [] {
      assert out + Endings(order, code) == out;
    } else {
      var before, last := order[..|order| - 1], order[|order| - 1];
      AllEndings(out, before, code);
      OneEnding(out + Endings(before, code), last, code);
      assert out + Endings(order, code) == out + Endings(before, code) + Ending(last, code);
      assert forall id :: id in order <==> id in before || id == last;
    }
  }

  lemma StepBalanced(s: State, e: Event)
    requires Balanced(s) && Possible(s, e)
    ensures Balanced(Step(s, e))
  {
    match e
    case Incoming(id) =>
    case Answer(id, err) =>
      OneAnswer(s.answers, id);
      OneEnding(s.out, id, 200);
    case Hangup(id, code) =>
      OneEnding(s.out, id, code);
      OneMore(s.out, Hungup(id, code));
    case CallClosed(id) => OneEnding(s.out, id, 200);
    case Disconnected(order) => AllEndings(s.out, order, 500);
  }

  lemma {:induction false} RunBalanced(s: State, es: seq<Event>)
    requires Balanced(s) && PossibleRun(s, es)
    ensures Balanced(Run(s, es))
    decreases |es|
  {
    if es != [] {
      StepBalanced(s, es[0]);
      RunBalanced(Step(s, es[0]), es[1..]);
    }
  }

  /**
   In every run, a call was closed exactly as often as it was answered, or once less while it is
   live; so a call that was never answered was never closed.
   */
  lemma EveryRun(es: seq<Event>, id: string)
    requires PossibleRun(INITIAL, es)
    ensures var s := Run(INITIAL, es);
            Closings(s.out, id) == Answers(s.answers, id) - if id in s.live then 1 else 0
  {
    RunBalanced(INITIAL, es);
  }

  // ---------- what each event does ----------

  /**
   A call is pending from its arrival until it is answered, successfully or not, or closed; closing a live
   call of the same id, or hanging up, leaves it pending.
   */
  lemma PendingExact(s: State, e: Event, id: string)
    ensures id in Step(s, e).pending
            <==> if id in s.pending then !(e.Answer? && e.id == id) && !(e.CallClosed? && e.id == id && id !in s.live)
                 else e.Incoming? && e.id == id
  {
  }

  /** A pending call id leaves by this event: it is answered, or closed while no call of that id is live. */
  predicate Leaves(s: State, e: Event, id: string) {
    (e.Answer? && e.id == id) || (e.CallClosed? && e.id == id && id !in s.live)
  }

  /** No event of the run makes it leave. */
  predicate Stays(s: State, es: seq<Event>, id: string)
    decreases |es|
  {
    es != [] ==> !Leaves(s, es[0], id) && Stays(Step(s, es[0]), es[1..], id)
  }

  /** The call arrives with event k, and stays from then on. */
  predicate ArrivesAt(s: State, es: seq<Event>, id: string, k: nat) {
    k < |es| && es[k] == Incoming(id) && Stays(Run(s, es[..k + 1]), es[k + 1..], id)
  }

  lemma ArrivesLater(s: State, es: seq<Event>, id: string, k: nat)
    requires es != []
    ensures ArrivesAt(s, es, id, k + 1) <==> ArrivesAt(Step(s, es[0]), es[1..], id, k)
  {
    if k < |es[1..]| {
      assert es[..k + 2][1..] == es[1..][..k + 1] && es[..k + 2][0] == es[0];
      assert es[k + 2..] == es[1..][k + 1..];
    }
  }

  /** After a run, a call is pending if and only if it has stayed so from the beginning or since an arrival. */
  lemma {:induction false} EveryPending(s: State, es: seq<Event>, id: string)
    ensures id in Run(s, es).pending
            <==> (id in s.pending && Stays(s, es, id)) || exists k: nat :: ArrivesAt(s, es, id, k)
    decreases |es|
  {
    if es != [] {
      var s1 := Step(s, es[0]);
      EveryPending(s1, es[1..], id);
      PendingExact(s, es[0], id);
      FirstArrival(s, es, id);
      if k: nat :| ArrivesAt(s1, es[1..], id, k) {
        ArrivesLater(s, es, id, k);
      }
      if k: nat :| ArrivesAt(s, es, id, k) && k > 0 {
        ArrivesLater(s, es, id, k - 1);
      }
    }
  }

  lemma FirstArrival(s: State, es: seq<Event>, id: string)
    requires es != []
    ensures ArrivesAt(s, es, id, 0) <==> es[0] == Incoming(id) && Stays(Step(s, es[0]), es[1..], id)
  {
    var first := es[..1];
    assert first == [es[0]] && first[1..] == [];
    assert Run(s, first) == Run(Step(s, es[0]), []) == Step(s, es[0]);
  }

  /** A call is live from a successful answer until it is hung up or closed, or the connection is lost. */
  lemma LiveExact(s: State, e: Event, id: string)
    ensures id in Step(s, e).live
            <==> if id in s.live then !e.Disconnected? && !((e.Hangup? || e.CallClosed?) && e.id == id)
                 else e.Answer? && e.id == id && e.err == 0 && id in s.pending
  {
  }

  /** What can happen to a call: a pending one is hung up, a live one ends, a pending one is answered. */
  datatype Kind = Rejected | Ended | Answered

  predicate Happens(kind: Kind, s: State, e: Event, id: string) {
    match kind
    case Rejected => e.Hangup? && e.id == id && id in s.pending && id !in s.live
    case Ended =>
      id in s.live && (e.Disconnected? || ((e.Hangup? || e.CallClosed?) && e.id == id)
                       || (e.Answer? && e.id == id && e.err == 0 && id in s.pending))
    case Answered => e.Answer? && e.id == id && e.err == 0 && id in s.pending
  }

  /** How often that happens to id in a run. */
  function Times(kind: Kind, s: State, es: seq<Event>, id: string): nat
    decreases |es|
  {
    if es == [] then 0
    else (if Happens(kind, s, es[0], id) then 1 else 0) + Times(kind, Step(s, es[0]), es[1..], id)
  }

  function Hangups(out: seq<Out>, id: string): nat {
    if out == [] then 0
    else Hangups(out[..|out| - 1], id) + if out[|out| - 1].Hungup? && out[|out| - 1].id == id then 1 else 0
  }

  lemma OneHangup(out: seq<Out>, o: Out)
    ensures forall id :: Hangups(out + [o], id) == Hangups(out, id) + if o.Hungup? && o.id == id then 1 else 0
  {
    assert (out + [o])[..|out|] == out;
  }

  lemma EndingHangup(out: seq<Out>, ended: string, code: int)
    ensures forall id :: Hangups(out + Ending(ended, code), id) == Hangups(out, id) + if id == ended then 1 else 0
  {
    OneHangup(out, Hungup(ended, code));
    OneHangup(out + [Hungup(ended, code)], Closed(ended, code));
    assert out + Ending(ended, code) == out + [Hungup(ended, code)] + [Closed(ended, code)];
  }

  lemma {:induction false} AllHangups(out: seq<Out>, order: seq<string>, code: int)
    requires forall i, j :: 0 <= i < j < |order| ==> order[i] != order[j]
    ensures forall id :: Hangups(out + Endings(order, code), id) == Hangups(out, id) + if id in order then 1 else 0
    decreases |order|
  {
    if order == [] {
      assert out + Endings(order, code) == out;
    } else {
      var before, last := order[..|order| - 1], order[|order| - 1];
      AllHangups(out, before, code);
      EndingHangup(out + Endings(before, code), last, code);
      assert out + Endings(order, code) == out + Endings(before, code) + Ending(last, code);
      assert forall id :: id in order <==> id in before || id == last;
    }
  }

  lemma StepHangups(s: State, e: Event, id: string)
    requires Possible(s, e)
    ensures Hangups(Step(s, e).out, id) == Hangups(s.out, id) + (if Happens(Ended, s, e, id) then 1 else 0)
                                         + if Happens(Rejected, s, e, id) then 1 else 0
  {
    match e
    case Incoming(_) =>
    case Answer(other, err) => EndingHangup(s.out, other, 200);
    case Hangup(other, code) =>
      EndingHangup(s.out, other, code);
      OneHangup(s.out, Hungup(other, code));
    case CallClosed(other) => EndingHangup(s.out, other, 200);
    case Disconnected(order) => AllHangups(s.out, order, 500);
  }

  lemma StepClosings(s: State, e: Event, id: string)
    requires Possible(s, e)
    ensures Closings(Step(s, e).out, id) == Closings(s.out, id) + if Happens(Ended, s, e, id) then 1 else 0
    ensures Answers(Step(s, e).answers, id) == Answers(s.answers, id) + if Happens(Answered, s, e, id) then 1 else 0
  {
    match e
    case Incoming(_) =>
    case Answer(other, err) =>
      OneAnswer(s.answers, other);
      OneEnding(s.out, other, 200);
    case Hangup(other, code) =>
      OneEnding(s.out, other, code);
      OneMore(s.out, Hungup(other, code));
    case CallClosed(other) => OneEnding(s.out, other, 200);
    case Disconnected(order) => AllEndings(s.out, order, 500);
  }

  /**
   Over every run, a call is closed each time a live one ends, hung up each of these times and each time a
   pending one is hung up, and answered each time a pending one is answered successfully.
   */
  lemma {:induction false} RunCounts(s: State, es: seq<Event>, id: string)
    requires PossibleRun(s, es)
    ensures Closings(Run(s, es).out, id) == Closings(s.out, id) + Times(Ended, s, es, id)
    ensures Hangups(Run(s, es).out, id) == Hangups(s.out, id) + Times(Ended, s, es, id) + Times(Rejected, s, es, id)
    ensures Answers(Run(s, es).answers, id) == Answers(s.answers, id) + Times(Answered, s, es, id)
    decreases |es|
  {
    if es != [] {
      StepHangups(s, es[0], id);
      StepClosings(s, es[0], id);
      RunCounts(Step(s, es[0]), es[1..], id);
    }
  }

  /** In every run from the beginning, what was hung up and not closed is what was hung up while pending. */
  lemma EveryHangup(es: seq<Event>, id: string)
    requires PossibleRun(INITIAL, es)
    ensures var out := Run(INITIAL, es).out;
            Hangups(out, id) - Closings(out, id) == Times(Rejected, INITIAL, es, id)
  {
    RunCounts(INITIAL, es, id);
  }

  /** Each message that a call is closed follows directly on its hangup, with the same code. */
  predicate Paired(out: seq<Out>) {
    forall i :: 0 <= i < |out| && out[i].Closed? ==> i > 0 && out[i - 1] == Hungup(out[i].id, out[i].code)
  }

  lemma {:induction false} EndingsPaired(out: seq<Out>, order: seq<string>, code: int)
    requires Paired(out)
    ensures Paired(out + Endings(order, code))
    decreases |order|
  {
    if order == [] {
      assert out + Endings(order, code) == out;
    } else {
      var before, last := order[..|order| - 1], order[|order| - 1];
      EndingsPaired(out, before, code);
      assert out + Endings(order, code) == out + Endings(before, code) + Ending(last, code);
    }
  }

  /** Message o comes from event e: with its id, and its code, 500 for a lost connection, and 200 otherwise. */
  predicate ComesFrom(o: Out, e: Event) {
    match e
    case Incoming(_) => false
    case Answer(id, _) => o.id == id && o.code == 200
    case Hangup(id, code) => o.id == id && o.code == code
    case CallClosed(id) => o.id == id && o.code == 200
    case Disconnected(_) => o.code == 500
  }

  /** The messages of s' are those of s, and then some that come from e. */
  ghost predicate Sends(s: State, s': State, e: Event) {
    && |s.out| <= |s'.out| && s'.out[..|s.out|] == s.out
    && forall i :: |s.out| <= i < |s'.out| ==> ComesFrom(s'.out[i], e)
  }

  lemma {:induction false} EndingsCode(order: seq<string>, code: int)
    ensures forall i :: 0 <= i < |Endings(order, code)| ==> Endings(order, code)[i].code == code
    decreases |order|
  {
    if order != [] {
      EndingsCode(order[..|order| - 1], code);
    }
  }

  lemma StepSends(s: State, e: Event)
    requires Paired(s.out)
    ensures Paired(Step(s, e).out) && Sends(s, Step(s, e), e)
  {
    if e.Disconnected? {
      EndingsPaired(s.out, e.order, 500);
      EndingsCode(e.order, 500);
    }
  }

  /** In every run, endings are paired, and every message has the id and code of an event of the run. */
  lemma {:induction false} EveryMessage(s: State, es: seq<Event>)
    requires Paired(s.out)
    ensures Paired(Run(s, es).out)
    ensures forall i :: |s.out| <= i < |Run(s, es).out| ==>
                          exists j :: 0 <= j < |es| && ComesFrom(Run(s, es).out[i], es[j])
    ensures |s.out| <= |Run(s, es).out| && Run(s, es).out[..|s.out|] == s.out
    decreases |es|
  {
    if es != [] {
      var s1 := Step(s, es[0]);
      StepSends(s, es[0]);
      EveryMessage(s1, es[1..]);
      var out := Run(s, es).out;
      assert out[..|s.out|] == out[..|s1.out|][..|s.out|];
      forall i | |s.out| <= i < |out| ensures exists j :: 0 <= j < |es| && ComesFrom(out[i], es[j]) {
        if i < |s1.out| {
          assert out[i] == out[..|s1.out|][i] && ComesFrom(out[i], es[0]);
        } else {
          var j :| 0 <= j < |es[1..]| && ComesFrom(out[i], es[1..][j]);
          assert ComesFrom(out[i], es[j + 1]);
        }
      }
    }
  }

  // ---------- pending and live calls ----------

  /** No call is pending and live at once, now and after each event of the run. */
  predicate Apart(s: State, es: seq<Event>)
    decreases |es|
  {
    s.pending !! s.live && (es != [] ==> Apart(Step(s, es[0]), es[1..]))
  }

  /** No call arrives under the id of a call that is live at that moment. */
  predicate NeverReuses(s: State, es: seq<Event>)
    decreases |es|
  {
    es != [] ==> !(es[0].Incoming? && es[0].id in s.live) && NeverReuses(Step(s, es[0]), es[1..])
  }

  lemma StepDisjoint(s: State, e: Event)
    requires s.pending !! s.live
    ensures Step(s, e).pending !! Step(s, e).live <==> !(e.Incoming? && e.id in s.live)
  {
    if e.Incoming? {
      assert e.id in Step(s, e).pending;
    }
  }

  /** Pending and live calls stay apart over a run if and only if no arrival reuses the id of a live call. */
  lemma {:induction false} DisjointExact(s: State, es: seq<Event>)
    requires s.pending !! s.live
    ensures Apart(s, es) <==> NeverReuses(s, es)
    decreases |es|
  {
    if es != [] {
      StepDisjoint(s, es[0]);
      if Step(s, es[0]).pending !! Step(s, es[0]).live {
        DisjointExact(Step(s, es[0]), es[1..]);
      } else {
        assert !Apart(Step(s, es[0]), es[1..]);
      }
    }
  }

  /** The ids of the calls that arrive, in order. */
  function Arrivals(es: seq<Event>): seq<string> {
    if es == [] then []
    else (if es[0].Incoming? then [es[0].id] else []) + Arrivals(es[1..])
  }

  predicate Distinct(ids: seq<string>) {
    forall i, j :: 0 <= i < j < |ids| ==> ids[i] != ids[j]
  }

  /** Each id was answered at most once, and that of a pending call not yet. */
  ghost predicate Unspent(s: State) {
    && s.pending !! s.live
    && (forall id {:trigger Answers(s.answers, id)} :: Answers(s.answers, id) <= if id in s.pending then 0 else 1)
  }

  /** None of the ids was used. */
  ghost predicate Unused(s: State, ids: seq<string>) {
    forall i :: 0 <= i < |ids| ==>
      ids[i] !in s.pending && ids[i] !in s.live && Answers(s.answers, ids[i]) == 0
  }

  lemma StepUnspent(s: State, e: Event)
    requires Unspent(s) && (e.Incoming? ==> e.id !in s.live && Answers(s.answers, e.id) == 0)
    ensures Unspent(Step(s, e))
  {
    if e.Answer? {
      OneAnswer(s.answers, e.id);
    }
  }

  /** The ids of later arrivals stay unused. */
  lemma StepUnused(s: State, e: Event, ids: seq<string>)
    requires Unspent(s) && Unused(s, ids) && (e.Incoming? ==> e.id !in ids)
    ensures Unused(Step(s, e), ids)
  {
    if e.Answer? {
      OneAnswer(s.answers, e.id);
    }
  }

  lemma LaterArrivals(s: State, es: seq<Event>)
    requires es != [] && Distinct(Arrivals(es)) && Unused(s, Arrivals(es))
    ensures var e, later := es[0], Arrivals(es[1..]);
            && Distinct(later) && Unused(s, later)
            && (e.Incoming? ==> e.id !in later && e.id !in s.live && Answers(s.answers, e.id) == 0)
  {
    var ids, later := Arrivals(es), Arrivals(es[1..]);
    assert forall i :: 0 <= i < |later| ==> later[i] == ids[|ids| - |later| + i];
    if es[0].Incoming? {
      assert ids[0] == es[0].id && |ids| == |later| + 1;
    }
  }

  lemma {:induction false} RunUnspent(s: State, es: seq<Event>)
    requires Unspent(s) && Distinct(Arrivals(es)) && Unused(s, Arrivals(es))
    ensures Apart(s, es) && Unspent(Run(s, es))
    decreases |es|
  {
    if es != [] {
      LaterArrivals(s, es);
      StepUnspent(s, es[0]);
      StepUnused(s, es[0], Arrivals(es[1..]));
      RunUnspent(Step(s, es[0]), es[1..]);
    }
  }

  /**
   In every run whose calls arrive under different ids, pending and live calls are apart all the time,
   and a call was closed at most once: exactly once if it was answered and is not live any more.
   */
  lemma EveryDistinctRun(es: seq<Event>, id: string)
    requires PossibleRun(INITIAL, es) && Distinct(Arrivals(es))
    ensures Apart(INITIAL, es)
    ensures var s := Run(INITIAL, es);
            Closings(s.out, id) == if Answers(s.answers, id) == 1 && id !in s.live then 1 else 0
  {
    RunUnspent(INITIAL, es);
    RunBalanced(INITIAL, es);
    assert Answers(Run(INITIAL, es).answers, id) <= 1;
  }

  /** A second call under the id of a live one is pending and live at once. */
  lemma ReusedId(id: string)
    ensures var es := [Incoming(id), Answer(id, 0), Incoming(id)];
            var s := Run(INITIAL, es);
            id in s.pending && id in s.live && !NeverReuses(INITIAL, es)
  {
    var s1 := Step(INITIAL, Incoming(id));
    var s2 := Step(s1, Answer(id, 0));
    var es := [Incoming(id), Answer(id, 0), Incoming(id)];
    assert es[1..] == [Answer(id, 0), Incoming(id)] && es[1..][1..] == [Incoming(id)];
    assert Run(s1, es[1..]) == Run(s2, [Incoming(id)]) == Step(s2, Incoming(id)) by {
      assert [Incoming(id)][1..] == [];
    }
    assert !NeverReuses(s2, [Incoming(id)]) && !NeverReuses(s1, es[1..]);
  }

  // ---------- the objects ----------

  class Session {
    const id: string
    /** The call the session owns, if it owns one. */
    var call: Option<string>

    constructor (call: string)
      ensures this.id == call && this.call == Some(call)
    {
      this.id := call;
      this.call := Some(call);
    }

    /** Takes the call over from another session. */
    constructor Move(other: Session)
      modifies other`call
      ensures this.id == other.id && this.call == old(other.call) && other.call == None
    {
      this.id := other.id;
      this.call := other.call;
      new;
      other.call := None;
    }

    /** Hangs up the call, unless the session has none. */
    method Hangup(code: int) returns (sent: seq<Out>)
      modifies this`call
      ensures call == None
      ensures sent == if old(call) == None then [] else [Hungup(old(call).value, code), Closed(id, code)]
    {
      sent := [];
      if call.Some? {
        sent := [Hungup(call.value, code), Closed(id, code)];
        call := None;
      }
    }

    method Destroy() returns (sent: seq<Out>)
      modifies this`call
      ensures call == None
      ensures sent == if old(call) == None then [] else [Hungup(old(call).value, 200), Closed(id, 200)]
    {
      sent := Hangup(200);
    }
  }

  class Registry {
    var pending: set<string>
    var sessions: map<string, Session>
    var out: seq<Out>
    ghost var answers: seq<string>

    /** Every session in the table owns the call it is filed under. */
    ghost predicate Valid()
      reads this, sessions.Values
    {
      forall id :: id in sessions ==> sessions[id].id == id && sessions[id].call == Some(id)
    }

    ghost function Value(): State
      reads this
    {
      State(pending, sessions.Keys, answers, out)
    }

    constructor ()
      ensures Valid() && Value() == INITIAL
    {
      pending, sessions, out, answers := {}, map[], [], [];
    }

    method Incoming(id: string)
      requires Valid()
      modifies this`pending
      ensures Valid() && Value() == Step(old(Value()), Event.Incoming(id))
    {
      pending := pending + {id};
    }

    /** Makes the session of an answered call; a second one under the same id is destroyed with its call. */
    method Insert(id: string)
      requires Valid()
      modifies this`sessions, this`out
      ensures Valid()
      ensures sessions.Keys == old(sessions.Keys) + {id}
      ensures out == old(out) + if id in old(sessions) then Ending(id, 200) else []
    {
      var made := new Session(id);
      var pair := new Session.Move(made);
      if id !in sessions {
        var node := new Session.Move(pair);
        sessions := sessions[id := node];
      }
      var sent := pair.Destroy();
      out := out + sent;
      sent := made.Destroy();
      out := out + sent;
    }

    method Answer(id: string, err: nat) returns (code: nat)
      requires Valid()
      modifies this
      ensures Valid() && Value() == Step(old(Value()), Event.Answer(id, err))
      ensures code == if id in old(pending) then err else EINVAL
    {
      if id !in pending {
        return EINVAL;
      }
      if err == 0 {
        Insert(id);
        answers := answers + [id];
      }
      pending := pending - {id};
      code := err;
    }

    /** Ends the session of a live call. */
    method End(id: string, status: int)
      requires Valid() && id in sessions
      modifies this`sessions, this`out, sessions[id]
      ensures Valid() && sessions == old(sessions) - {id} && out == old(out) + Ending(id, status)
    {
      var session := sessions[id];
      var sent := session.Hangup(status);
      out := out + sent;
      sessions := sessions - {id};
      sent := session.Destroy();
      out := out + sent;
    }

    method Hangup(id: string, status: int)
      requires Valid()
      modifies this`sessions, this`out, sessions.Values
      ensures Valid() && Value() == Step(old(Value()), Event.Hangup(id, status))
    {
      if id in sessions {
        End(id, status);
      } else if id in pending {
        out := out + [Hungup(id, status)];
      }
    }

    method CallClosed(id: string)
      requires Valid()
      modifies this`sessions, this`pending, this`out, sessions.Values
      ensures Valid() && Value() == Step(old(Value()), Event.CallClosed(id))
    {
      if id in sessions {
        End(id, 200);
      } else {
        pending := pending - {id};
      }
    }

    /** Hangs up every session and clears the table. */
    method Disconnected() returns (ghost order: seq<string>)
      requires Valid()
      modifies this`sessions, this`out, sessions.Values
      ensures Possible(old(Value()), Event.Disconnected(order))
      ensures Valid() && Value() == Step(old(Value()), Event.Disconnected(order))
    {
      order := [];
      var todo := sessions.Keys;
      while todo != {}
        invariant todo <= sessions.Keys && sessions == old(sessions)
        invariant forall id :: id in todo ==> sessions[id].id == id && sessions[id].call == Some(id)
        invariant IsOrder(order, sessions.Keys - todo)
        invariant out == old(out) + Endings(order, 500)
      {
        var id :| id in todo;
        OrderGrows(order, sessions.Keys - todo, id);
        EndingsGrow(order, id, 500);
        var sent := sessions[id].Hangup(500);
        out := out + sent;
        todo := todo - {id};
        assert sessions.Keys - todo == sessions.Keys - (todo + {id}) + {id};
        order := order + [id];
      }
      assert sessions.Keys - todo == sessions.Keys;
      sessions := map[];
    }
  }
}
