/**
 The map of the house, and who is where. Places are connected in pairs of opposite directions, so
 that a caller can go back the way he came; and a caller is in the list of the place he is at.
 */
module Places {

  import opened Options

  /** Places and callers are known by their identity. */
  class Place {
    var exits: map<string, Place>
    var callers: seq<Caller>

    constructor ()
      ensures exits == map[] && callers == []
    {
      exits, callers := map[], [];
    }
  }

  class Caller {
    var location: Place?
    /** Whether the caller has data of the place he is at. */
    var userData: bool

    constructor ()
      ensures location == null && !userData
    {
      location, userData := null, false;
    }
  }

  // ---------- the map ----------

  const MIRROR: map<string, string> :=
    map["north" := "south", "northeast" := "southwest", "east" := "west", "southeast" := "northwest",
        "south" := "north", "southwest" := "northeast", "west" := "east", "northwest" := "southeast"]

  lemma MirrorTwice(d: string)
    requires d in MIRROR
    ensures MIRROR[d] in MIRROR && MIRROR[MIRROR[d]] == d && MIRROR[d] != d
  {
    assert "north" != "south" && "east" != "west" && "northeast" != "southwest" && "southeast" != "northwest" by {
      assert "north"[0] == 'n' && "south"[0] == 's' && "east"[0] == 'e' && "west"[0] == 'w';
    }
  }

  /** The directions as steps on a map, east and north being positive. */
  function Compass(d: string): Option<(int, int)> {
    if d == "north" then Some((0, 1))
    else if d == "northeast" then Some((1, 1))
    else if d == "east" then Some((1, 0))
    else if d == "southeast" then Some((1, -1))
    else if d == "south" then Some((0, -1))
    else if d == "southwest" then Some((-1, -1))
    else if d == "west" then Some((-1, 0))
    else if d == "northwest" then Some((-1, 1))
    else None
  }

  /** The known directions are those of the compass, and the mirror of one is the way straight back. */
  lemma MirrorExact(d: string)
    ensures d in MIRROR <==> Compass(d).Some?
    ensures d in MIRROR ==> Compass(MIRROR[d]) == Some((-Compass(d).value.0, -Compass(d).value.1))
  {
    assert "north"[0] == 'n' && "south"[0] == 's' && "east"[0] == 'e' && "west"[0] == 'w';
    assert "northeast"[5] == 'e' && "northwest"[5] == 'w' && "southeast"[5] == 'e' && "southwest"[5] == 'w';
    assert "northeast"[0] == 'n' && "northwest"[0] == 'n' && "southeast"[0] == 's' && "southwest"[0] == 's';
  }

  type Graph = map<Place, map<string, Place>>

  function Set(g: Graph, p: Place, d: string, q: Place): Graph
    requires p in g
  {
    g[p := g[p][d := q]]
  }

  /** Both places get an exit to the other. */
  function Connected(g: Graph, source: Place, dest: Place, d: string, reverse: string): Graph
    requires source in g && dest in g
  {
    Set(Set(g, source, d, dest), dest, reverse, source)
  }

  /** There is an exit from p to q in direction d. */
  predicate Exit(g: Graph, p: Place, d: string, q: Place) {
    p in g && d in g[p] && g[p][d] == q
  }

  /** Every exit leads to a place of the map that has the opposite exit back. */
  ghost predicate Symmetric(g: Graph) {
    forall p, d :: p in g && d in g[p] ==> d in MIRROR && Exit(g, g[p][d], MIRROR[d], p)
  }

  /** There is no exit from p in direction d, or it leads to q already. */
  predicate Free(g: Graph, p: Place, d: string, q: Place)
    requires p in g
  {
    d in g[p] ==> g[p][d] == q
  }

  /**
   Connecting sets the exit of the source in the direction, then that of the destination in the reverse one,
   and no other; a reverse that is no opposite is taken as it is.
   */
  lemma ConnectedExits(g: Graph, source: Place, dest: Place, d: string, r: string, p: Place, x: string)
    requires source in g && dest in g && p in g
    ensures var g' := Connected(g, source, dest, d, r);
            && p in g'
            && (x in g'[p] <==> x in g[p] || (p == source && x == d) || (p == dest && x == r))
            && (x in g'[p] ==> g'[p][x] == if p == dest && x == r then source
                                           else if p == source && x == d then dest else g[p][x])
  {
  }

  /** Connecting keeps the map symmetric if and only if both exits are free. */
  lemma ConnectExact(g: Graph, source: Place, dest: Place, d: string)
    requires Symmetric(g) && source in g && dest in g && d in MIRROR
    ensures Symmetric(Connected(g, source, dest, d, MIRROR[d]))
            <==> Free(g, source, d, dest) && Free(g, dest, MIRROR[d], source)
  {
    var r := MIRROR[d];
    MirrorTwice(d);
    var g' := Connected(g, source, dest, d, r);
    if Free(g, source, d, dest) && Free(g, dest, r, source) {
      forall p, x | p in g' && x in g'[p] ensures x in MIRROR && Exit(g', g'[p][x], MIRROR[x], p) {
        ConnectedExits(g, source, dest, d, MIRROR[d], p, x);
        if x in g[p] {
          MirrorTwice(x);
          assert Exit(g, g[p][x], MIRROR[x], p);
        }
        ConnectedExits(g, source, dest, d, MIRROR[d], g'[p][x], MIRROR[x]);
      }
    } else if !Free(g, source, d, dest) {
      Overwritten(g, source, dest, d, source, d);
    } else {
      Overwritten(g, source, dest, d, dest, r);
    }
  }

  /** The exit x of p led elsewhere: that place still has its exit to p, but p does not lead there any more. */
  lemma Overwritten(g: Graph, source: Place, dest: Place, d: string, p: Place, x: string)
    requires Symmetric(g) && source in g && dest in g && d in MIRROR
    requires (p == source && x == d && !Free(g, p, x, dest)) || (p == dest && x == MIRROR[d] && !Free(g, p, x, source))
    ensures !Symmetric(Connected(g, source, dest, d, MIRROR[d]))
  {
    MirrorTwice(d);
    var g' := Connected(g, source, dest, d, MIRROR[d]);
    var other := g[p][x];
    assert Exit(g, other, MIRROR[x], p);
    ConnectedExits(g, source, dest, d, MIRROR[d], other, MIRROR[x]);
    ConnectedExits(g, source, dest, d, MIRROR[d], p, x);
    assert MIRROR[x] in g'[other] && g'[other][MIRROR[x]] == p && !Exit(g', p, x, other);
  }

  /** The place where a walk ends, if every exit of it exists. */
  function Walk(g: Graph, p: Place, ds: seq<string>): Option<Place>
    decreases |ds|
  {
    if ds == [] then Some(p)
    else if p in g && ds[0] in g[p] then Walk(g, g[p][ds[0]], ds[1..])
    else None
  }

  /** The opposite directions in opposite order. */
  function Back(ds: seq<string>): seq<string>
    decreases |ds|
  {
    if ds == [] then [] else Back(ds[1..]) + [if ds[0] in MIRROR then MIRROR[ds[0]] else ds[0]]
  }

  lemma {:induction false} WalkOn(g: Graph, p: Place, a: seq<string>, b: seq<string>)
    requires Walk(g, p, a).Some?
    ensures Walk(g, p, a + b) == Walk(g, Walk(g, p, a).value, b)
    decreases |a|
  {
    if a == [] {
      assert a + b == b;
    } else {
      assert (a + b)[1..] == a[1..] + b;
      WalkOn(g, g[p][a[0]], a[1..], b);
    }
  }

  lemma {:induction false} WalkBack(g: Graph, p: Place, ds: seq<string>)
    requires Symmetric(g) && Walk(g, p, ds).Some?
    ensures Walk(g, Walk(g, p, ds).value, Back(ds)) == Some(p)
    decreases |ds|
  {
    if ds != [] {
      var d := ds[0];
      var q := g[p][d];
      assert d in MIRROR && Exit(g, q, MIRROR[d], p);
      WalkBack(g, q, ds[1..]);
      WalkOn(g, Walk(g, p, ds).value, Back(ds[1..]), [MIRROR[d]]);
      assert Walk(g, q, [MIRROR[d]]) == Some(p) by {
        assert [MIRROR[d]][1..] == [];
      }
    }
  }

  /** Every walk from a place of the map is undone by the way back. */
  ghost predicate AllUndone(g: Graph) {
    forall p, ds {:trigger Walk(g, p, ds)} :: p in g && Walk(g, p, ds).Some? ==>
      Walk(g, Walk(g, p, ds).value, Back(ds)) == Some(p)
  }

  /** All directions of the map are known ones. */
  predicate KnownDirections(g: Graph) {
    forall p, d :: p in g && d in g[p] ==> d in MIRROR
  }

  /** Every walk can be undone if and only if the map is symmetric. */
  lemma UndoneExact(g: Graph)
    requires KnownDirections(g)
    ensures AllUndone(g) <==> Symmetric(g)
  {
    if Symmetric(g) {
      forall p, ds | p in g && Walk(g, p, ds).Some?
        ensures Walk(g, Walk(g, p, ds).value, Back(ds)) == Some(p)
      {
        WalkBack(g, p, ds);
      }
    }
    if AllUndone(g) {
      forall p, d | p in g && d in g[p] ensures d in MIRROR && Exit(g, g[p][d], MIRROR[d], p) {
        var q := g[p][d];
        assert [d][1..] == [];
        assert Walk(g, p, [d]) == Some(q);
        assert Back([d]) == [MIRROR[d]] by {
          assert Back([]) == [];
        }
        assert Walk(g, q, [MIRROR[d]]) == Some(p);
        assert [MIRROR[d]][1..] == [];
      }
    }
  }

  /** One call of `connect` with the opposite direction for the way back. */
  datatype Link = Link(source: Place, dest: Place, direction: string)

  /** The links are between places of the map, in known directions. */
  predicate Known(g: Graph, links: seq<Link>) {
    forall i :: 0 <= i < |links| ==>
      links[i].source in g && links[i].dest in g && links[i].direction in MIRROR
  }

  /** The map after all links are made. */
  function Built(g: Graph, links: seq<Link>): (r: Graph)
    requires Known(g, links)
    ensures r.Keys == g.Keys
  {
    if links == [] then g
    else
      var l := links[|links| - 1];
      Connected(Built(g, links[..|links| - 1]), l.source, l.dest, l.direction, MIRROR[l.direction])
  }

  /** Each link connects exits that are free. */
  predicate BuildsFree(g: Graph, links: seq<Link>)
    requires Known(g, links)
  {
    links != [] ==>
      var l, before := links[|links| - 1], links[..|links| - 1];
      && BuildsFree(g, before)
      && Free(Built(g, before), l.source, l.direction, l.dest)
      && Free(Built(g, before), l.dest, MIRROR[l.direction], l.source)
  }

  /** However it is built of free exits, every walk through the map can be undone. */
  lemma {:induction false} EveryMapUndone(g: Graph, links: seq<Link>)
    requires Symmetric(g) && Known(g, links) && BuildsFree(g, links)
    ensures Symmetric(Built(g, links)) && AllUndone(Built(g, links))
    decreases |links|
  {
    if links != [] {
      var l, before := links[|links| - 1], links[..|links| - 1];
      EveryMapUndone(g, before);
      ConnectExact(Built(g, before), l.source, l.dest, l.direction);
    }
    UndoneExact(Built(g, links));
  }

  // ---------- the villa ----------

  /** The link makes the exit d of p. */
  predicate Makes(l: Link, p: Place, d: string)
    requires l.direction in MIRROR
  {
    (p == l.source && d == l.direction) || (p == l.dest && d == MIRROR[l.direction])
  }

  /** The last link that makes an exit decides where that leads. */
  lemma {:induction false} LastLink(g: Graph, links: seq<Link>, i: nat, p: Place, d: string)
    requires Known(g, links) && p in g && i < |links| && Makes(links[i], p, d) && links[i].source != links[i].dest
    requires forall j :: i < j < |links| ==> !Makes(links[j], p, d)
    ensures Exit(Built(g, links), p, d, if p == links[i].source then links[i].dest else links[i].source)
    decreases |links|
  {
    var l, before := links[|links| - 1], links[..|links| - 1];
    MirrorTwice(l.direction);
    ConnectedExits(Built(g, before), l.source, l.dest, l.direction, MIRROR[l.direction], p, d);
    if i < |before| {
      LastLink(g, before, i, p, d);
    }
  }

  const HALL := 0
  const CORRIDOR := 1
  const KITCHEN := 2
  const DINING := 3
  const TERRACE := 4
  const SALON := 5
  const LADIES := 6
  const GENTLEMEN := 7
  const SOFA := 8
  const CHEST := 9
  const SHELF := 10

  /** The connections of the house, in the order in which they are made; `h` is its places. */
  function VillaLinks(h: seq<Place>): seq<Link>
    requires |h| == 11
  {
    [Link(h[HALL], h[CORRIDOR], "north"), Link(h[HALL], h[KITCHEN], "east"), Link(h[HALL], h[DINING], "west"),
     Link(h[CORRIDOR], h[TERRACE], "north"), Link(h[CORRIDOR], h[SALON], "east"),
     Link(h[CORRIDOR], h[LADIES], "west"), Link(h[CORRIDOR], h[GENTLEMEN], "northwest"),
     Link(h[SALON], h[TERRACE], "north"), Link(h[SALON], h[SOFA], "east"), Link(h[SALON], h[CHEST], "northeast"),
     Link(h[SALON], h[SHELF], "southeast")]
  }

  /** In the house, the terrace is north of the corridor and of the salon: the way back leads to the salon. */
  lemma {:induction false} TerraceNotUndone(h: seq<Place>)
    requires |h| == 11 && forall i, j :: 0 <= i < j < |h| ==> h[i] != h[j]
    ensures var g0: Graph := map p | p in h :: map[];
            && Known(g0, VillaLinks(h))
            && Walk(Built(g0, VillaLinks(h)), h[CORRIDOR], ["north", "south"]) == Some(h[SALON])
            && !AllUndone(Built(g0, VillaLinks(h)))
  {
    var g0: Graph := map p | p in h :: map[];
    NorthOfCorridor(g0, h);
    SouthOfTerrace(g0, h);
    ThereAndBack(Built(g0, VillaLinks(h)), h[CORRIDOR], h[TERRACE], h[SALON]);
  }

  lemma {:induction false} NorthOfCorridor(g: Graph, h: seq<Place>)
    requires |h| == 11 && (forall i, j :: 0 <= i < j < |h| ==> h[i] != h[j]) && forall p :: p in h ==> p in g
    ensures Known(g, VillaLinks(h)) && Exit(Built(g, VillaLinks(h)), h[CORRIDOR], "north", h[TERRACE])
  {
    LastLink(g, VillaLinks(h), 3, h[CORRIDOR], "north");
  }

  lemma {:induction false} SouthOfTerrace(g: Graph, h: seq<Place>)
    requires |h| == 11 && (forall i, j :: 0 <= i < j < |h| ==> h[i] != h[j]) && forall p :: p in h ==> p in g
    ensures Known(g, VillaLinks(h)) && Exit(Built(g, VillaLinks(h)), h[TERRACE], "south", h[SALON])
  {
    LastLink(g, VillaLinks(h), 7, h[TERRACE], "south");
  }

  lemma ThereAndBack(g: Graph, p: Place, q: Place, r: Place)
    requires Exit(g, p, "north", q) && Exit(g, q, "south", r) && p != r
    ensures Walk(g, p, ["north", "south"]) == Some(r) && !AllUndone(g)
  {
    assert ["north", "south"][1..] == ["south"] && ["south"][1..] == [] && ["north"][1..] == [];
    assert Walk(g, q, ["south"]) == Some(r);
    assert Walk(g, p, ["north"]) == Some(q);
    assert Back([]) == [] && Back(["north"]) == ["south"];
  }

  ghost function GraphOf(places: set<Place>): Graph
    reads places
  {
    map p | p in places :: p.exits
  }

  /** Connects two places; without `reverse`, by opposite directions. False if the direction is unknown. */
  method Connect(source: Place, dest: Place, direction: string, reverse: Option<string>, ghost places: set<Place>)
    returns (ok: bool)
    requires source in places && dest in places
    modifies source`exits, dest`exits
    ensures ok == (direction in MIRROR)
    ensures GraphOf(places) == if !ok then old(GraphOf(places)) else
              Connected(old(GraphOf(places)), source, dest, direction,
                        if reverse.Some? then reverse.value else MIRROR[direction])
  {
    if direction !in MIRROR {
      return false;
    }
    var r := if reverse.Some? then reverse.value else MIRROR[direction];
    source.exits := source.exits[direction := dest];
    dest.exits := dest.exits[r := source];
    ok := true;
  }

  // ---------- who is where ----------

  /** The caller lists, where each caller is, and who has data of the place he is at. */
  datatype House = House(lists: map<Place, seq<Caller>>, at: map<Caller, Option<Place>>, data: set<Caller>)

  /** The errors that leaving a place can end in; they change nothing. */
  datatype Error = AttributeError | ValueError

  datatype Result = Ok(h: House) | Err(error: Error)

  predicate Knows(h: House, c: Caller, p: Place) {
    c in h.at && p in h.lists
  }

  function Entered(h: House, c: Caller, p: Place): House
    requires Knows(h, c, p)
  {
    House(h.lists[p := h.lists[p] + [c]], h.at[c := Some(p)], h.data + {c})
  }

  /** s without the first x. */
  function RemoveFirst(s: seq<Caller>, x: Caller): seq<Caller> {
    if s == [] then [] else if s[0] == x then s[1..] else [s[0]] + RemoveFirst(s[1..], x)
  }

  function Left(h: House, c: Caller, p: Place): Result
    requires Knows(h, c, p)
  {
    if exists x :: x in h.lists[p] && x !in h.data then Err(AttributeError)
    else if c !in h.lists[p] then Err(ValueError)
    else Ok(House(h.lists[p := RemoveFirst(h.lists[p], c)], h.at[c := None], h.data - {c}))
  }

  function Moved(h: House, c: Caller, p: Place, dest: Place): Result
    requires Knows(h, c, p) && Knows(h, c, dest)
  {
    match Left(h, c, p)
    case Err(error) => Err(error)
    case Ok(h') => Ok(Entered(h', c, dest))
  }

  predicate NoDuplicates(s: seq<Caller>) {
    forall i, j :: 0 <= i < j < |s| ==> s[i] != s[j]
  }

  /** Each caller is in the list of the place he is at, once, and in no other; and exactly then he has data. */
  ghost predicate Consistent(h: House) {
    && (forall p :: p in h.lists ==> NoDuplicates(h.lists[p]))
    && (forall p, c :: p in h.lists && c in h.lists[p] ==> c in h.at && h.at[c] == Some(p))
    && (forall c :: c in h.at && h.at[c].Some? ==>
          c in h.data && h.at[c].value in h.lists && c in h.lists[h.at[c].value])
    && (forall c :: c in h.at && c in h.data ==> h.at[c].Some?)
  }

  lemma {:induction false} RemoveFirstMembers(s: seq<Caller>, x: Caller)
    requires NoDuplicates(s)
    ensures NoDuplicates(RemoveFirst(s, x))
    ensures var r := RemoveFirst(s, x);
            && (forall i :: 0 <= i < |r| ==> r[i] in s && r[i] != x)
            && (forall i :: 0 <= i < |s| && s[i] != x ==> s[i] in r)
  {
    if s != [] {
      if s[0] != x {
        var rest := RemoveFirst(s[1..], x);
        RemoveFirstMembers(s[1..], x);
        assert RemoveFirst(s, x) == [s[0]] + rest;
        assert forall j :: 0 <= j < |rest| ==> rest[j] in s[1..] && rest[j] != s[0];
        assert forall i :: 0 < i < |s| ==> s[i] == s[1..][i - 1];
      } else {
        assert forall i :: 0 < i < |s| ==> s[i] == s[1..][i - 1];
      }
    }
  }

  /** Entering a place keeps everyone where he is listed if and only if the caller was nowhere. */
  lemma EnterExact(h: House, c: Caller, p: Place)
    requires Consistent(h) && Knows(h, c, p)
    ensures Consistent(Entered(h, c, p)) <==> h.at[c] == None
  {
    var h' := Entered(h, c, p);
    if h.at[c].Some? {
      var q := h.at[c].value;
      assert c in h.lists[q];
      if q == p {
        var i :| 0 <= i < |h.lists[p]| && h.lists[p][i] == c;
        assert h'.lists[p][i] == h'.lists[p][|h.lists[p]|];
      } else {
        assert c in h'.lists[q];
      }
    } else {
      assert c !in h.lists[p];
      forall q, x | q in h'.lists && x in h'.lists[q] ensures x in h'.at && h'.at[x] == Some(q) {
        assert q == p || x in h.lists[q];
      }
    }
  }

  /** Entering puts the caller behind those who are there, gives him data, and changes nothing else. */
  lemma EnterLaw(h: House, c: Caller, p: Place)
    requires Knows(h, c, p)
    ensures var h' := Entered(h, c, p);
            && h'.lists.Keys == h.lists.Keys && h'.lists[p] == h.lists[p] + [c]
            && (forall q :: q in h.lists && q != p ==> h'.lists[q] == h.lists[q])
            && h'.at == h.at[c := Some(p)] && h'.data == h.data + {c}
  {
  }

  lemma {:induction false} RemoveFirstAt(s: seq<Caller>, x: Caller) returns (i: nat)
    requires x in s
    ensures i < |s| && s[i] == x && x !in s[..i] && RemoveFirst(s, x) == s[..i] + s[i + 1..]
  {
    if s[0] == x {
      i := 0;
    } else {
      var j := RemoveFirstAt(s[1..], x);
      i := j + 1;
      assert s[..i] == [s[0]] + s[1..][..j];
      assert s[i + 1..] == s[1..][j + 1..];
    }
  }

  /**
   Leaving takes the first mention of the caller out of the list and his data away, and changes nothing
   else; it fails if anyone listed has no data, and otherwise only if the caller is not listed.
   */
  lemma LeaveExact(h: House, c: Caller, p: Place) returns (i: nat)
    requires Knows(h, c, p)
    ensures var r, list := Left(h, c, p), h.lists[p];
            && (r == Err(AttributeError) <==> exists x :: x in list && x !in h.data)
            && (r == Err(ValueError) <==> c !in list && forall x :: x in list ==> x in h.data)
            && (r.Ok? ==> && i < |list| && list[i] == c && c !in list[..i]
                          && r.h.lists == h.lists[p := list[..i] + list[i + 1..]]
                          && r.h.at == h.at[c := None] && r.h.data == h.data - {c})
  {
    i := 0;
    if c in h.lists[p] {
      i := RemoveFirstAt(h.lists[p], c);
    }
  }

  /** Leaving succeeds exactly for a caller who is there, and never for want of data; it keeps everyone else. */
  lemma LeaveLaw(h: House, c: Caller, p: Place)
    requires Consistent(h) && Knows(h, c, p)
    ensures Left(h, c, p) == Err(ValueError) <==> h.at[c] != Some(p)
    ensures Left(h, c, p).Ok? <==> h.at[c] == Some(p)
    ensures Left(h, c, p).Ok? ==> Consistent(Left(h, c, p).h) && Left(h, c, p).h.at == h.at[c := None]
                                  && Left(h, c, p).h.lists.Keys == h.lists.Keys
  {
    RemoveFirstMembers(h.lists[p], c);
    assert forall x :: x in h.lists[p] ==> x in h.data;
    if Left(h, c, p).Ok? {
      var h' := Left(h, c, p).h;
      forall q, x | q in h'.lists && x in h'.lists[q] ensures x in h'.at && h'.at[x] == Some(q) {
        if q == p {
          assert x in RemoveFirst(h.lists[p], c);
        }
        assert x in h.lists[q] && h.at[x] == Some(q);
      }
    }
  }

  /** A caller who moves from where he is is at his destination afterwards, and nobody else has moved. */
  lemma MoveLaw(h: House, c: Caller, p: Place, dest: Place)
    requires Consistent(h) && Knows(h, c, p) && dest in h.lists
    ensures Moved(h, c, p, dest).Ok? <==> h.at[c] == Some(p)
    ensures Moved(h, c, p, dest).Ok? ==>
              var h' := Moved(h, c, p, dest).h;
              && Consistent(h') && h'.at == h.at[c := Some(dest)] && h'.lists.Keys == h.lists.Keys
  {
    LeaveLaw(h, c, p);
    if h.at[c] == Some(p) {
      var h1 := Left(h, c, p).h;
      EnterExact(h1, c, dest);
    }
  }

  datatype Event = Enter(c: Caller, p: Place) | Leave(c: Caller, p: Place) | Move(c: Caller, p: Place, dest: Place)

  /** The caller and the places exist, and only a caller who is nowhere enters. */
  predicate Allowed(h: House, e: Event) {
    && Knows(h, e.c, e.p)
    && (e.Enter? ==> h.at[e.c] == None)
    && (e.Move? ==> e.dest in h.lists)
  }

  function Step(h: House, e: Event): House
    requires Allowed(h, e)
  {
    match e
    case Enter(c, p) => Entered(h, c, p)
    case Leave(c, p) => if Left(h, c, p).Ok? then Left(h, c, p).h else h
    case Move(c, p, dest) => if Moved(h, c, p, dest).Ok? then Moved(h, c, p, dest).h else h
  }

  ghost predicate AllowedRun(h: House, es: seq<Event>)
    decreases |es|
  {
    es != [] ==> Allowed(h, es[0]) && AllowedRun(Step(h, es[0]), es[1..])
  }

  ghost function Run(h: House, es: seq<Event>): House
    requires AllowedRun(h, es)
    decreases |es|
  {
    if es == [] then h else Run(Step(h, es[0]), es[1..])
  }

  /** In every run each caller is in exactly the list of the place he is at, or in none. */
  lemma {:induction false} EveryRunConsistent(h: House, es: seq<Event>)
    requires Consistent(h) && AllowedRun(h, es)
    ensures Consistent(Run(h, es))
    decreases |es|
  {
    if es != [] {
      match es[0] {
        case Enter(c, p) => EnterExact(h, c, p);
        case Leave(c, p) => LeaveLaw(h, c, p);
        case Move(c, p, dest) => MoveLaw(h, c, p, dest);
      }
      EveryRunConsistent(Step(h, es[0]), es[1..]);
    }
  }

  ghost function HouseOf(places: set<Place>, people: set<Caller>): House
    reads places, people
  {
    House(map p | p in places :: p.callers,
          map c | c in people :: if c.location == null then None else Some(c.location),
          set c | c in people && c.userData)
  }

  method EnterPlace(p: Place, c: Caller, ghost places: set<Place>, ghost people: set<Caller>)
    requires p in places && c in people
    modifies p`callers, c
    ensures HouseOf(places, people) == Entered(old(HouseOf(places, people)), c, p)
  {
    ghost var h := HouseOf(places, people);
    c.location := p;
    c.userData := true;
    p.callers := p.callers + [c];
    assert HouseOf(places, people).lists == Entered(h, c, p).lists;
    assert HouseOf(places, people).at == Entered(h, c, p).at;
    assert HouseOf(places, people).data == Entered(h, c, p).data;
  }

  /** None if the caller has left. */
  method LeavePlace(p: Place, c: Caller, ghost places: set<Place>, ghost people: set<Caller>)
    returns (error: Option<Error>)
    requires p in places && c in people && forall x :: x in p.callers ==> x in people
    modifies p`callers, c
    ensures match Left(old(HouseOf(places, people)), c, p)
            case Err(e) => error == Some(e) && HouseOf(places, people) == old(HouseOf(places, people))
            case Ok(h) => error == None && HouseOf(places, people) == h
  {
    ghost var h := HouseOf(places, people);
    for i := 0 to |p.callers|
      invariant forall j :: 0 <= j < i ==> p.callers[j].userData
    {
      if !p.callers[i].userData {
        assert p.callers[i] in h.lists[p] && p.callers[i] !in h.data;
        return Some(AttributeError);
      }
    }
    if c !in p.callers {
      return Some(ValueError);
    }
    p.callers := RemoveFirst(p.callers, c);
    c.userData := false;
    c.location := null;
    assert HouseOf(places, people).lists == Left(h, c, p).h.lists;
    assert HouseOf(places, people).at == Left(h, c, p).h.at;
    assert HouseOf(places, people).data == Left(h, c, p).h.data;
    error := None;
  }

  method MoveCaller(p: Place, c: Caller, dest: Place, ghost places: set<Place>, ghost people: set<Caller>)
    returns (error: Option<Error>)
    requires p in places && dest in places && c in people && forall x :: x in p.callers ==> x in people
    modifies p`callers, dest`callers, c
    ensures match Moved(old(HouseOf(places, people)), c, p, dest)
            case Err(e) => error == Some(e) && HouseOf(places, people) == old(HouseOf(places, people))
            case Ok(h) => error == None && HouseOf(places, people) == h
  {
    error := LeavePlace(p, c, places, people);
    if error == None {
      EnterPlace(dest, c, places, people);
    }
  }
}
