/**
 The stop list of the elevator: floors called while it heads one way are served on the way, the
 others afterwards.
 */
module Elevators {

  datatype Direction = None | Up | Down

  datatype Lift = Lift(floor: int, direction: Direction, stops: seq<int>)

  /** Where the first stop is from `floor`; a stop at the floor itself counts as down. */
  function Heading(floor: int, stops: seq<int>): Direction
    requires stops != []
  {
    if stops[0] > floor then Up else Down
  }

  /** The direction the elevator travels in, or is going to. */
  function Travel(e: Lift): Direction {
    if e.direction != None || e.stops == [] then e.direction else Heading(e.floor, e.stops)
  }

  /** f lies strictly ahead of the elevator. */
  predicate Ahead(e: Lift, f: int) {
    match Travel(e)
    case None => false
    case Up => f > e.floor
    case Down => f < e.floor
  }

  /** f is passed before st is reached. */
  predicate Before(e: Lift, f: int, st: int) {
    Ahead(e, f) && (if Travel(e) == Up then f < st else f > st)
  }

  /** The first stop, from index i on, that is f or that is to come after f; |stops| if there is none. */
  function Slot(e: Lift, f: int, i: nat): (r: nat)
    requires i <= |e.stops|
    ensures i <= r <= |e.stops|
    ensures forall j :: i <= j < r ==> e.stops[j] != f && !Before(e, f, e.stops[j])
    ensures r < |e.stops| ==> e.stops[r] == f || Before(e, f, e.stops[r])
    decreases |e.stops| - i
  {
    if i == |e.stops| || e.stops[i] == f || Before(e, f, e.stops[i]) then i else Slot(e, f, i + 1)
  }

  function Added(e: Lift, f: int): seq<int> {
    var i := Slot(e, f, 0);
    if i < |e.stops| && e.stops[i] == f then e.stops
    else e.stops[..i] + [f] + e.stops[i..]
  }

  function Started(e: Lift): Lift {
    e.(direction := Travel(e))
  }

  function Called(e: Lift, f: int): Lift {
    Started(e.(stops := Added(e, f)))
  }

  datatype Event = Call(floor: int) | Start | Arrived

  function Step(e: Lift, ev: Event): Lift {
    match ev
    case Call(f) => Called(e, f)
    case Start => Started(e)
    case Arrived => e.(direction := None)
  }

  function Run(e: Lift, evs: seq<Event>): Lift {
    if evs == [] then e else Step(Run(e, evs[..|evs| - 1]), evs[|evs| - 1])
  }

  function Floors(evs: seq<Event>): set<int> {
    set i | 0 <= i < |evs| && evs[i].Call? :: evs[i].floor
  }

  // ---------- what every run keeps ----------

  predicate NoDuplicates(s: seq<int>) {
    forall i, j :: 0 <= i < j < |s| ==> s[i] != s[j]
  }

  /** The stops ahead are in the order in which they are passed. */
  predicate AheadSorted(e: Lift) {
    forall i, j :: 0 <= i < j < |e.stops| && Ahead(e, e.stops[i]) && Ahead(e, e.stops[j])
                   ==> Before(e, e.stops[i], e.stops[j])
  }

  /** If the elevator moves, it moves towards its first stop. */
  predicate Consistent(e: Lift) {
    e.direction != None ==> e.stops != [] && e.direction == Heading(e.floor, e.stops)
  }

  predicate Valid(e: Lift) {
    NoDuplicates(e.stops) && AheadSorted(e) && Consistent(e)
  }

  /** Calling keeps the direction of travel. */
  lemma TravelKept(e: Lift, f: int)
    requires Consistent(e) && e.stops != []
    ensures Added(e, f) != [] && Heading(e.floor, Added(e, f)) == Heading(e.floor, e.stops)
    ensures Travel(e.(stops := Added(e, f))) == Travel(e)
  {
  }

  lemma AddedAt(e: Lift, f: int, k: nat)
    requires k < |Added(e, f)| && f !in e.stops
    ensures var i := Slot(e, f, 0);
            Added(e, f)[k] == if k < i then e.stops[k] else if k == i then f else e.stops[k - 1]
  {
  }

  /** A floor that is called already is found: no stop before it comes after it. */
  lemma FoundFirst(e: Lift, f: int)
    requires Valid(e) && f in e.stops
    ensures Added(e, f) == e.stops
  {
    var k :| 0 <= k < |e.stops| && e.stops[k] == f;
    assert Ahead(e, e.stops[k]) == Ahead(e, f);
    assert Slot(e, f, 0) == k;
  }

  lemma CallValid(e: Lift, f: int)
    requires Valid(e)
    ensures Valid(Called(e, f))
    ensures forall x :: x in Called(e, f).stops <==> x in e.stops || x == f
  {
    if f in e.stops {
      FoundFirst(e, f);
      TravelKept(e, f);
    } else {
      var i := Slot(e, f, 0);
      var s := Added(e, f);
      forall x ensures x in s <==> x in e.stops || x == f {
        assert e.stops == e.stops[..i] + e.stops[i..];
      }
      forall j, k | 0 <= j < k < |s| ensures s[j] != s[k] {
        AddedAt(e, f, j);
        AddedAt(e, f, k);
      }
      AddedSorted(e, f);
    }
  }

  lemma AddedSorted(e: Lift, f: int)
    requires Valid(e) && f !in e.stops
    ensures AheadSorted(Called(e, f)) && Consistent(Called(e, f))
  {
    var e' := Called(e, f);
    var i := Slot(e, f, 0);
    if e.stops != [] {
      TravelKept(e, f);
      forall j, k | 0 <= j < k < |e'.stops| && Ahead(e', e'.stops[j]) && Ahead(e', e'.stops[k])
        ensures Before(e', e'.stops[j], e'.stops[k])
      {
        AddedAt(e, f, j);
        AddedAt(e, f, k);
        if j == i && k > i + 1 {
          assert Before(e, f, e.stops[i]) && Ahead(e, e.stops[i]);
          assert Before(e, e.stops[i], e.stops[k - 1]);
        }
      }
    }
  }

  lemma StepValid(e: Lift, ev: Event)
    requires Valid(e)
    ensures Valid(Step(e, ev)) && Step(e, ev).floor == e.floor
    ensures forall x :: x in Step(e, ev).stops <==> x in e.stops || (ev.Call? && x == ev.floor)
    ensures e.stops != [] ==> Step(e, ev).stops != []
                              && Heading(e.floor, Step(e, ev).stops) == Heading(e.floor, e.stops)
  {
    if ev.Call? {
      CallValid(e, ev.floor);
      if e.stops != [] {
        TravelKept(e, ev.floor);
      }
    } else {
      assert Step(e, ev).stops == e.stops;
      assert e.stops != [] ==> Travel(Step(e, ev)) == Travel(e);
    }
  }

  /**
   After every run of an elevator that begins with no stops, the stops are the floors called, each
   once, and those ahead are in the order in which they are passed.
   */
  lemma {:induction false} EveryRun(floor: int, evs: seq<Event>)
    ensures var e := Run(Lift(floor, None, []), evs);
            && Valid(e) && e.floor == floor
            && (forall x :: x in e.stops <==> x in Floors(evs))
  {
    if evs != [] {
      var n := |evs| - 1;
      EveryRun(floor, evs[..n]);
      StepValid(Run(Lift(floor, None, []), evs[..n]), evs[n]);
      assert forall x :: x in Floors(evs) <==> x in Floors(evs[..n]) || (evs[n].Call? && x == evs[n].floor);
    }
  }

  /** The stops above an elevator whose first stop is above are in rising order, and likewise below. */
  lemma AheadInOrder(floor: int, evs: seq<Event>, i: nat, j: nat)
    requires i < j < |Run(Lift(floor, None, []), evs).stops|
    ensures var stops := Run(Lift(floor, None, []), evs).stops;
            && (stops[0] > floor && stops[i] > floor && stops[j] > floor ==> stops[i] < stops[j])
            && (stops[0] <= floor && stops[i] < floor && stops[j] < floor ==> stops[i] > stops[j])
  {
    EveryRun(floor, evs);
  }

  /**
   The elevator rests exactly until a floor is called and after it has arrived; otherwise it goes up if
   its first stop is above, and down if not.
   */
  lemma DirectionExact(floor: int, evs: seq<Event>)
    ensures var e := Run(Lift(floor, None, []), evs);
            && (e.direction == None <==> evs == [] || evs[|evs| - 1].Arrived? || Floors(evs) == {})
            && (e.direction != None ==> e.stops != [] && e.direction == if e.stops[0] > floor then Up else Down)
  {
    var e := Run(Lift(floor, None, []), evs);
    EveryRun(floor, evs);
    if e.stops != [] {
      assert e.stops[0] in Floors(evs);
    } else {
      assert forall f :: f in Floors(evs) <==> f in e.stops;
    }
  }

  /** Once there is a stop, the side of the first stop never changes. */
  lemma {:induction false} HeadingNeverFlips(e: Lift, evs: seq<Event>)
    requires Valid(e) && e.stops != []
    ensures var e' := Run(e, evs);
            && Valid(e') && e'.floor == e.floor
            && e'.stops != [] && Heading(e.floor, e'.stops) == Heading(e.floor, e.stops)
  {
    if evs != [] {
      var n := |evs| - 1;
      HeadingNeverFlips(e, evs[..n]);
      StepValid(Run(e, evs[..n]), evs[n]);
    }
  }

  /**
   Floor f is passed on the way to st: the elevator goes up, or rests and its first stop is above, and f lies
   between its floor and st; or the same downwards.
   */
  predicate Passes(e: Lift, f: int, st: int) {
    || (e.floor < f < st && (e.direction == Up || (e.direction == None && e.stops != [] && e.stops[0] > e.floor)))
    || (st < f < e.floor && (e.direction == Down || (e.direction == None && e.stops != [] && e.stops[0] <= e.floor)))
  }

  /**
   A call puts f before the first stop on whose way it is passed, or at the end, unless it meets f among
   the stops before.
   */
  lemma CallExact(e: Lift, f: int) returns (i: nat)
    ensures i <= |e.stops| && (forall j :: 0 <= j < i ==> e.stops[j] != f && !Passes(e, f, e.stops[j]))
    ensures i < |e.stops| ==> e.stops[i] == f || Passes(e, f, e.stops[i])
    ensures Called(e, f).floor == e.floor
    ensures Called(e, f).stops == if i < |e.stops| && e.stops[i] == f then e.stops
                                  else e.stops[..i] + [f] + e.stops[i..]
  {
    i := Slot(e, f, 0);
    assert forall j :: 0 <= j < |e.stops| ==> (Before(e, f, e.stops[j]) <==> Passes(e, f, e.stops[j]));
  }

  // ---------- the length of the route ----------

  function Distance(a: int, b: int): nat {
    if a < b then b - a else a - b
  }

  /** The way from `from` along the stops in order. */
  function Route(from: int, stops: seq<int>): nat
    decreases |stops|
  {
    if stops == [] then 0 else Distance(from, stops[0]) + Route(stops[0], stops[1..])
  }

  function Last(from: int, stops: seq<int>): int {
    if stops == [] then from else stops[|stops| - 1]
  }

  lemma {:induction false} RouteSplit(from: int, a: seq<int>, b: seq<int>)
    ensures Route(from, a + b) == Route(from, a) + Route(Last(from, a), b)
    decreases |a|
  {
    if a == [] {
      assert a + b == b;
    } else {
      assert (a + b)[1..] == a[1..] + b;
      RouteSplit(a[0], a[1..], b);
    }
  }

  /** f is on the way: ahead, with a stop beyond it. */
  predicate OnTheWay(e: Lift, f: int) {
    exists j :: 0 <= j < |e.stops| && Before(e, f, e.stops[j])
  }

  /** A call lengthens the route by the way from the last stop, unless the floor is on the way or called already. */
  lemma RouteExact(e: Lift, f: int)
    ensures Route(e.floor, Added(e, f))
         == Route(e.floor, e.stops)
          + if f in e.stops || OnTheWay(e, f) then 0 else Distance(Last(e.floor, e.stops), f)
  {
    var i := Slot(e, f, 0);
    var a, b := e.stops[..i], e.stops[i..];
    assert e.stops == a + b;
    if i == |e.stops| {
      RouteSplit(e.floor, e.stops, [f]);
      assert Added(e, f) == e.stops + [f];
    } else if e.stops[i] != f {
      RouteSplit(e.floor, a, b);
      RouteSplit(e.floor, a, [f] + b);
      assert Added(e, f) == a + ([f] + b);
      assert Route(Last(e.floor, a), [f] + b) == Distance(Last(e.floor, a), f) + Route(f, b) by {
        assert ([f] + b)[1..] == b;
      }
      assert i > 0 ==> e.stops[i - 1] != f && !Before(e, f, e.stops[i - 1]);
    }
  }

  // ---------- the object ----------

  class Elevator {
    var floor: int
    var direction: Direction
    var stops: seq<int>

    constructor ()
      ensures Value() == Lift(0, None, [])
    {
      floor, direction, stops := 0, None, [];
    }

    function Value(): Lift
      reads this
    {
      Lift(floor, direction, stops)
    }

    /** None if the elevator moves or has no stop. */
    method NextDirection() returns (d: Direction)
      ensures d == if direction == None && stops != [] then Heading(floor, stops) else None
    {
      d := None;
      if direction == None && stops != [] {
        d := if stops[0] > floor then Up else Down;
      }
    }

    method Start()
      modifies this`direction
      ensures Value() == Started(old(Value()))
    {
      if direction == None && stops != [] {
        direction := if stops[0] > floor then Up else Down;
      }
    }

    method Call(f: int)
      modifies this`direction, this`stops
      ensures Value() == Called(old(Value()), f)
    {
      var added := false;
      for i := 0 to |stops|
        invariant !added && Value() == old(Value())
        invariant Slot(Value(), f, 0) == Slot(Value(), f, i)
      {
        var st := stops[i];
        if f == st {
          added := true;
          break;
        }
        var d := direction;
        if d == None {
          d := NextDirection();
        }
        if (d == Up && f > floor && f < st) || (d == Down && f < floor && f > st) {
          stops := stops[..i] + [f] + stops[i..];
          added := true;
          break;
        }
      }
      if !added {
        stops := stops + [f];
      }
      Start();
    }

    method Arrived()
      modifies this`direction
      ensures Value() == old(Value()).(direction := None)
    {
      direction := None;
    }
  }
}
