/**
 Atoms and molecules: what a call plays. A molecule is a list of atoms with a
 mode, a cursor into the list and two time stamps. The arithmetic here turns a
 position in milliseconds into a cursor and an offset.
 */
module Molecules {

  import opened Options

  /** The number of values of the 64-bit unsigned type that holds times and positions. */
  const WORD: nat := 0x1_0000_0000_0000_0000

  /** Unsigned 64-bit subtraction: wraps around when the result would be negative. */
  function Minus(a: nat, b: nat): nat {
    (a - b) % WORD
  }

  /** `length` is the length of the file in ms. A recording has length 0 and ignores offsets. */
  datatype Atom = Play(length: nat, offset: nat) | Record(dtmfStop: bool) {

    function Length(): nat {
      if Play? then length else 0
    }

    function Offset(): nat {
      if Play? then offset else 0
    }

    function WithOffset(o: nat): Atom {
      if Play? then this.(offset := o) else this
    }

    /** The two differ in their offset only. */
    predicate Same(other: Atom) {
      WithOffset(0) == other.WithOffset(0)
    }
  }

  /** The mode bits of a molecule. No scheduling decision reads the last two. */
  datatype Mode = Mode(discard: bool, pause: bool, mute: bool, restart: bool, loop: bool,
                       dontInterrupt: bool, dtmfStop: bool) {

    /** Loops, and is repositioned each time it is scheduled after its last atom. */
    predicate Immortal() {
      loop && (restart || mute || pause)
    }

    /** Loops, and may be repositioned modulo its total length. */
    predicate Cyclic() {
      loop && (mute || pause)
    }
  }

  /** The value of a molecule at one moment. */
  datatype Mol = Mol(token: string, priority: nat, mode: Mode, atoms: seq<Atom>,
                     cur: nat, started: nat, stopped: nat) {

    predicate Playable() {
      atoms != []
    }

    predicate IsActive() {
      cur < |atoms|
    }
  }

  /** The total length of the first n atoms. */
  function Prefix(atoms: seq<Atom>, n: nat): nat
    requires n <= |atoms|
  {
    if n == 0 then 0 else Prefix(atoms, n - 1) + atoms[n - 1].Length()
  }

  function Total(atoms: seq<Atom>): nat {
    Prefix(atoms, |atoms|)
  }

  lemma {:induction false} PrefixOfPart(atoms: seq<Atom>, n: nat, k: nat)
    requires k <= n <= |atoms|
    ensures Prefix(atoms[..n], k) == Prefix(atoms, k)
  {
    if k != 0 {
      PrefixOfPart(atoms, n, k - 1);
    }
  }

  /** The first n atoms are as long as these atoms alone. */
  lemma PrefixIsTotal(atoms: seq<Atom>, n: nat)
    requires n <= |atoms|
    ensures Prefix(atoms, n) == Total(atoms[..n])
  {
    PrefixOfPart(atoms, n, n);
  }

  /** Every atom adds its length: that of its file, and nothing for a recording. */
  lemma TotalOfOne(l: nat, o: nat, dtmfStop: bool)
    ensures Total([]) == 0 && Total([Play(l, o)]) == l && Total([Record(dtmfStop)]) == 0
  {
    assert Prefix([Play(l, o)], 0) == 0 && Prefix([Record(dtmfStop)], 0) == 0;
  }

  /** The length of two lists of atoms one after the other is the sum of their lengths. */
  lemma {:induction false} TotalOfSum(a: seq<Atom>, b: seq<Atom>)
    ensures Total(a + b) == Total(a) + Total(b)
    decreases |b|
  {
    if b == [] {
      assert a + b == a;
    } else {
      var n := |b| - 1;
      TotalOfSum(a, b[..n]);
      PrefixIsTotal(a + b, |a| + n);
      PrefixIsTotal(b, n);
      assert (a + b)[..|a| + n] == a + b[..n];
    }
  }

  /** Two atoms are the same but for their offset: files of one length, or recordings that stop alike. */
  lemma SameExact(a: Atom, b: Atom)
    ensures a.Same(b) <==> if a.Play? then b.Play? && a.length == b.length else a == b
  {
  }

  predicate SameAtoms(a: seq<Atom>, b: seq<Atom>) {
    |a| == |b| && forall i :: 0 <= i < |a| ==> a[i].Same(b[i])
  }

  lemma {:induction false} PrefixSame(a: seq<Atom>, b: seq<Atom>, n: nat)
    requires SameAtoms(a, b) && n <= |a|
    ensures Prefix(a, n) == Prefix(b, n)
  {
    if n != 0 {
      PrefixSame(a, b, n - 1);
    }
  }

  lemma {:induction false} PrefixMonotone(atoms: seq<Atom>, i: nat, j: nat)
    requires i <= j <= |atoms|
    ensures Prefix(atoms, i) <= Prefix(atoms, j)
    decreases j
  {
    if i < j {
      PrefixMonotone(atoms, i, j - 1);
    }
  }

  /** The first atom, from i on, at whose end at least `pos` ms have gone by; |atoms| if there is none. */
  function Reach(atoms: seq<Atom>, pos: nat, i: nat): (r: nat)
    requires i <= |atoms|
    ensures i <= r <= |atoms|
    ensures forall j :: i < j <= r ==> Prefix(atoms, j) < pos
    ensures r < |atoms| ==> pos <= Prefix(atoms, r + 1)
    decreases |atoms| - i
  {
    if i == |atoms| || pos <= Prefix(atoms, i + 1) then i else Reach(atoms, pos, i + 1)
  }

  /** The molecule with its cursor and the offset of the atom under it set to `pos` ms. */
  function Positioned(m: Mol, pos: nat): (r: Mol)
    ensures SameAtoms(m.atoms, r.atoms)
    ensures r == m.(cur := r.cur, atoms := r.atoms)
  {
    var i := Reach(m.atoms, pos, 0);
    if i == |m.atoms| then m
    else
      m.(cur := i, atoms := m.atoms[i := m.atoms[i].WithOffset(pos - Prefix(m.atoms, i))])
  }

  /** Position `pos` is in atom i: after all before it, at the latest at its end; position 0 is in the first. */
  predicate Covers(atoms: seq<Atom>, pos: nat, i: nat) {
    i < |atoms| && (i == 0 || Prefix(atoms, i) < pos) && pos <= Prefix(atoms, i + 1)
  }

  /** Setting a position puts the cursor at atom i if and only if the position is in that atom. */
  lemma CursorExact(m: Mol, pos: nat, i: nat)
    requires pos <= Total(m.atoms) && i < |m.atoms|
    ensures Positioned(m, pos).cur == i <==> Covers(m.atoms, pos, i)
  {
    var r := Reach(m.atoms, pos, 0);
    if i < r {
      PrefixMonotone(m.atoms, i + 1, r);
    } else if r < i {
      PrefixMonotone(m.atoms, r + 1, i);
    }
  }

  /** The position of a molecule in ms: everything before the cursor, and the offset under it. */
  function Position(m: Mol): nat
    requires m.IsActive()
  {
    Prefix(m.atoms, m.cur) + m.atoms[m.cur].Offset()
  }

  /** A position is made of the lengths of the atoms before the cursor, and of the offset if that is at a file. */
  lemma PositionIs(m: Mol)
    requires m.IsActive()
    ensures Position(m) == Total(m.atoms[..m.cur]) + if m.atoms[m.cur].Play? then m.atoms[m.cur].offset else 0
  {
    PrefixIsTotal(m.atoms, m.cur);
  }

  /**
   Setting a position that exists puts the molecule exactly there, with an offset inside the atom
   under the cursor and no other atom touched; a position past the end changes nothing.
   */
  lemma PositionLaw(m: Mol, pos: nat)
    ensures pos <= Total(m.atoms) && m.Playable() ==>
              var r := Positioned(m, pos);
              && r.IsActive()
              && Position(r) == pos
              && r.atoms[r.cur].Offset() <= r.atoms[r.cur].Length()
              && (forall i :: 0 <= i < |m.atoms| && i != r.cur ==> r.atoms[i] == m.atoms[i])
              && (forall i :: 0 < i <= r.cur ==> Prefix(m.atoms, i) < pos)
    ensures pos > Total(m.atoms) ==> Positioned(m, pos) == m
  {
    var i := Reach(m.atoms, pos, 0);
    var r := Positioned(m, pos);
    if i < |m.atoms| {
      PrefixMonotone(m.atoms, i + 1, |m.atoms|);
      PrefixSame(m.atoms, r.atoms, i);
    }
  }

  /** The position, if any, that `VQueue::schedule` asks for; Divide is a division by zero. */
  datatype Ask = Stay | Go(pos: nat) | Divide

  function Asked(m: Mol, now: nat): Ask {
    if !m.mode.loop then Stay
    else if m.mode.restart && !m.IsActive() then Go(0)
    else if m.mode.mute then
      if m.started == 0 then Go(0)
      else if Total(m.atoms) == 0 then Divide
      else Go(Minus(now, m.started) % Total(m.atoms))
    else if m.mode.pause then
      if !m.IsActive() || m.stopped == 0 then Go(0)
      else if Total(m.atoms) == 0 then Divide
      else Go(Minus(m.stopped, m.started) % Total(m.atoms))
    else Stay
  }

  /** The position asked for exists. */
  lemma AskedWithin(m: Mol, now: nat)
    ensures Asked(m, now).Go? ==> Asked(m, now).pos <= Total(m.atoms)
  {
  }

  /** Where `VQueue::schedule` puts a looping molecule; None if that divides by zero. */
  function Reposition(m: Mol, now: nat): Option<Mol> {
    match Asked(m, now)
    case Stay => Some(m)
    case Go(pos) => Some(Positioned(m, pos))
    case Divide => None
  }

  /** Repositioning touches only cursor and offsets, and only of looping molecules. */
  lemma RepositionFrame(m: Mol, now: nat)
    requires Reposition(m, now).Some?
    ensures var c := Reposition(m, now).value;
            && SameAtoms(m.atoms, c.atoms) && Total(m.atoms) == Total(c.atoms)
            && c == m.(cur := c.cur, atoms := c.atoms)
            && (m.IsActive() ==> c.IsActive())
            && (!m.mode.Immortal() ==> c == m)
            && (!m.mode.Cyclic() && (m.mode.restart ==> m.IsActive()) ==> c == m)
  {
    var c := Reposition(m, now).value;
    PrefixSame(m.atoms, c.atoms, |m.atoms|);
    assert c == m || exists pos :: c == Positioned(m, pos);
    if pos :| c == Positioned(m, pos) {
      assert m.IsActive() ==> c.IsActive();
    }
  }

  /** A looping molecule that restarts, mutes or pauses is never past its last atom once repositioned. */
  lemma RepositionRevives(m: Mol, now: nat)
    requires m.mode.Immortal() && m.Playable()
    requires Reposition(m, now).Some?
    ensures Reposition(m, now).value.IsActive()
  {
    PositionLaw(m, 0);
    if Total(m.atoms) > 0 {
      PositionLaw(m, Minus(now, m.started) % Total(m.atoms));
      PositionLaw(m, Minus(m.stopped, m.started) % Total(m.atoms));
    }
  }

  /** The division is by zero only for a molecule without length. */
  lemma RepositionDefined(m: Mol, now: nat)
    ensures m.mode.Cyclic() ==> Total(m.atoms) > 0 ==> Reposition(m, now).Some?
    ensures !m.mode.Cyclic() ==> Reposition(m, now).Some?
  {
  }

  /** m after the atom under its cursor failed to start. */
  function Broken(m: Mol): Mol
    requires m.IsActive()
  {
    m.(atoms := m.atoms[..m.cur] + m.atoms[m.cur + 1..], cur := m.cur + 1)
  }

  /** m after the atom under its cursor started: the first atom sets the start time. */
  function Begun(m: Mol, now: nat): Mol {
    if m.cur == 0 then m.(started := now) else m
  }

  /** The molecule as an object in the queue; `key` stands for its identity, see `Scheduling.State`. */
  class Molecule {
    ghost const key: nat
    const token: string
    const priority: nat
    const mode: Mode
    var atoms: seq<Atom>
    var current: nat
    var timeStarted: nat
    var timeStopped: nat

    constructor (ghost key: nat, token: string, priority: nat, mode: Mode, atoms: seq<Atom>)
      ensures this.key == key
      ensures Value() == Mol(token, priority, mode, atoms, 0, 0, 0)
    {
      this.key, this.token, this.priority, this.mode, this.atoms := key, token, priority, mode, atoms;
      current, timeStarted, timeStopped := 0, 0, 0;
    }

    function Value(): Mol
      reads this
    {
      Mol(token, priority, mode, atoms, current, timeStarted, timeStopped)
    }

    predicate IsActive()
      reads this
    {
      current < |atoms|
    }

    method Length() returns (l: nat)
      ensures l == Total(atoms)
    {
      l := 0;
      for i := 0 to |atoms|
        invariant l == Prefix(atoms, i)
      {
        l := l + atoms[i].Length();
      }
    }

    method SetPosition(position: nat)
      modifies this`current, this`atoms
      ensures Value() == Positioned(old(Value()), position)
    {
      var l, lPrev := 0, 0;
      for i := 0 to |atoms|
        invariant l == lPrev == Prefix(atoms, i)
        invariant Value() == old(Value())
        invariant i > 0 ==> l < position
        invariant Reach(atoms, position, 0) == Reach(atoms, position, i)
      {
        l := l + atoms[i].Length();
        if l >= position {
          var offset := position - lPrev;
          current := i;
          atoms := atoms[i := atoms[i].WithOffset(offset)];
          return;
        }
        lPrev := l;
      }
    }

    /** The atom under the cursor was played to its end. */
    method EndAtom(now: nat)
      modifies this
      ensures var c := old(Value()).(cur := old(current) + 1);
              Value() == if c.IsActive() then c else c.(stopped := now)
    {
      current := current + 1;
      if !IsActive() {
        timeStopped := now;
      }
    }

    /** The molecule is interrupted by itself: its position becomes the time since it started. */
    method Interrupt(now: nat)
      modifies this
      ensures Value() == Positioned(old(Value()).(stopped := now), Minus(now, old(timeStarted)))
    {
      timeStopped := now;
      SetPosition(Minus(now, timeStarted));
    }

    /** Puts a looping molecule where it is to play next; true if the process ends here. */
    method Relocate(now: nat) returns (trapped: bool)
      modifies this
      ensures trapped == Reposition(old(Value()), now).None?
      ensures !trapped ==> Value() == Reposition(old(Value()), now).value
    {
      trapped := false;
      if mode.loop {
        if mode.restart && !IsActive() {
          SetPosition(0);
        } else if mode.mute {
          var length := Length();
          if timeStarted != 0 && length == 0 {
            return true;
          }
          var pos := if timeStarted != 0 then Minus(now, timeStarted) % length else 0;
          SetPosition(pos);
        } else if mode.pause {
          var pos := 0;
          if IsActive() {
            var length := Length();
            if timeStopped != 0 && length == 0 {
              return true;
            }
            pos := if timeStopped != 0 then Minus(timeStopped, timeStarted) % length else 0;
          }
          SetPosition(pos);
        }
      }
    }

    /** The atom under the cursor is erased, and the cursor advances. */
    method DropAtom()
      requires IsActive()
      modifies this
      ensures Value() == Broken(old(Value()))
    {
      atoms := atoms[..current] + atoms[current + 1..];
      current := current + 1;
    }

    /** The atom under the cursor has started. */
    method MarkStarted(now: nat)
      modifies this
      ensures Value() == Begun(old(Value()), now)
    {
      if current == 0 {
        timeStarted := now;
      }
    }
  }
}
