/**
 Frames in a byte stream: each ends with CR LF. The scan for CR LF stops at a NUL byte, so a frame that
 has one is never delivered, nor anything after it.
 */
module Framing {

  import opened Options

  newtype Byte = x: int | 0 <= x < 256

  type Bytes = seq<Byte>

  const NUL: Byte := 0
  const LF: Byte := 10
  const CR: Byte := 13
  const CRLF: Bytes := [CR, LF]

  /** CR LF stands at i. */
  predicate CrlfAt(s: Bytes, i: nat) {
    i + 1 < |s| && s[i] == CR && s[i + 1] == LF
  }

  /** i is where the scan of s stops: the first CR LF, with no NUL before it. */
  predicate Hit(s: Bytes, i: nat) {
    CrlfAt(s, i) && forall j :: 0 <= j < i ==> s[j] != NUL && !CrlfAt(s, j)
  }

  /** The scan of s from i on. */
  function ScanFrom(s: Bytes, i: nat): (r: Option<nat>)
    requires i <= |s|
    requires forall j :: 0 <= j < i ==> s[j] != NUL && !CrlfAt(s, j)
    ensures r.Some? ==> Hit(s, r.value)
    ensures r.None? ==> forall j :: !Hit(s, j)
    decreases |s| - i
  {
    if i + 1 >= |s| || s[i] == NUL then None
    else if CrlfAt(s, i) then Some(i)
    else ScanFrom(s, i + 1)
  }

  function Scan(s: Bytes): (r: Option<nat>)
    ensures r.Some? ==> Hit(s, r.value)
    ensures r.None? ==> forall j :: !Hit(s, j)
  {
    ScanFrom(s, 0)
  }

  lemma ScanIs(s: Bytes, i: nat)
    requires Hit(s, i)
    ensures Scan(s) == Some(i)
  {
    var j := Scan(s).value;
    assert !(j < i) && !(i < j);
  }

  /** The frames of a stream, without their ends. */
  function Frames(s: Bytes): seq<Bytes>
    decreases |s|
  {
    match Scan(s)
    case None => []
    case Some(i) => [s[..i]] + Frames(s[i + 2..])
  }

  /** What follows the last frame. */
  function Tail(s: Bytes): Bytes
    decreases |s|
  {
    match Scan(s)
    case None => s
    case Some(i) => Tail(s[i + 2..])
  }

  /** Payloads as they are sent: each followed by CR LF. */
  function Wire(ps: seq<Bytes>): Bytes {
    if ps == [] then [] else ps[0] + CRLF + Wire(ps[1..])
  }

  /** Each payload is sent with a carriage return and a line feed behind it, and nothing else. */
  lemma {:induction false} WireBytes(ps: seq<Bytes>, p: Bytes)
    ensures Wire([]) == [] && Wire(ps + [p]) == Wire(ps) + p + [13, 10]
    decreases |ps|
  {
    if ps == [] {
      assert [] + [p] == [p] && [p][1..] == [];
    } else {
      WireBytes(ps[1..], p);
      assert (ps + [p])[1..] == ps[1..] + [p];
    }
  }

  /** The scan stops at the first carriage return with a line feed behind it, if no zero byte is before it. */
  lemma ScanBytes(s: Bytes, i: nat)
    ensures Scan(s) == Some(i)
            <==> i + 1 < |s| && s[i] == 13 && s[i + 1] == 10
                 && forall j :: 0 <= j < i ==> s[j] != 0 && !(s[j] == 13 && s[j + 1] == 10)
  {
    if i + 1 < |s| && s[i] == 13 && s[i + 1] == 10
       && forall j :: 0 <= j < i ==> s[j] != 0 && !(s[j] == 13 && s[j + 1] == 10) {
      ScanIs(s, i);
    }
  }

  /** A payload that the scan reads as one frame. */
  predicate Clean(p: Bytes) {
    forall i :: 0 <= i < |p| ==> p[i] != NUL && !CrlfAt(p, i)
  }

  predicate AllClean(ps: seq<Bytes>) {
    forall k :: 0 <= k < |ps| ==> Clean(ps[k])
  }

  lemma HitInSum(a: Bytes, b: Bytes, i: nat)
    requires Hit(a, i)
    ensures Hit(a + b, i)
  {
    forall j | 0 <= j < i ensures (a + b)[j] != NUL && !CrlfAt(a + b, j) {
      assert a[j] != NUL && !CrlfAt(a, j);
    }
  }

  /** Receiving b after a gives the frames of a, then those of the tail of a with b after it. */
  lemma {:induction false} FramesOfSum(a: Bytes, b: Bytes)
    ensures Frames(a + b) == Frames(a) + Frames(Tail(a) + b)
    ensures Tail(a + b) == Tail(Tail(a) + b)
    decreases |a|
  {
    if Scan(a).Some? {
      var i := Scan(a).value;
      HitInSum(a, b, i);
      ScanIs(a + b, i);
      assert (a + b)[..i] == a[..i];
      assert (a + b)[i + 2..] == a[i + 2..] + b;
      FramesOfSum(a[i + 2..], b);
      assert Frames(a + b) == [a[..i]] + (Frames(a[i + 2..]) + Frames(Tail(a) + b));
    } else {
      assert Frames(a) == [] && Tail(a) == a;
    }
  }

  lemma HeadClean(s: Bytes, i: nat)
    requires Hit(s, i)
    ensures Clean(s[..i]) && s == s[..i] + CRLF + s[i + 2..]
  {
    forall j | 0 <= j < i ensures s[..i][j] != NUL && !CrlfAt(s[..i], j) {
      assert s[j] != NUL && !CrlfAt(s, j);
    }
    assert s[i..i + 2] == CRLF;
    assert s == s[..i] + s[i..i + 2] + s[i + 2..];
  }

  lemma WireStep(p: Bytes, ps: seq<Bytes>)
    ensures Wire([p] + ps) == p + CRLF + Wire(ps)
  {
    assert ([p] + ps)[1..] == ps;
  }

  /** A stream is its frames as they were sent, and its tail; every frame is clean, and the tail has none. */
  lemma {:induction false} FramesAreWire(s: Bytes)
    ensures s == Wire(Frames(s)) + Tail(s)
    ensures AllClean(Frames(s)) && Scan(Tail(s)) == None
    decreases |s|
  {
    if Scan(s).Some? {
      var i := Scan(s).value;
      HeadClean(s, i);
      FramesAreWire(s[i + 2..]);
      var rest := Frames(s[i + 2..]);
      WireStep(s[..i], rest);
      assert s == s[..i] + CRLF + (Wire(rest) + Tail(s));
    }
  }

  lemma CleanFirst(p: Bytes, rest: Bytes)
    requires Clean(p)
    ensures Scan(p + CRLF + rest) == Some(|p|)
    ensures (p + CRLF + rest)[..|p|] == p && (p + CRLF + rest)[|p| + 2..] == rest
  {
    var s := p + CRLF + rest;
    forall j | 0 <= j < |p| ensures s[j] != NUL && !CrlfAt(s, j) {
      assert p[j] != NUL && !CrlfAt(p, j);
    }
    ScanIs(s, |p|);
  }

  /** No other clean frames and tail give the stream. */
  lemma {:induction false} FramesUnique(ps: seq<Bytes>, t: Bytes)
    requires AllClean(ps) && Scan(t) == None
    ensures Frames(Wire(ps) + t) == ps && Tail(Wire(ps) + t) == t
    decreases |ps|
  {
    if ps == [] {
      assert Wire(ps) + t == t;
    } else {
      FramesUnique(ps[1..], t);
      var rest := Wire(ps[1..]) + t;
      assert Wire(ps) + t == ps[0] + CRLF + rest;
      CleanFirst(ps[0], rest);
      assert [ps[0]] + ps[1..] == ps;
    }
  }

  /** What is sent is what is received, and nothing is left over, if and only if every payload is clean. */
  lemma RoundTrip(ps: seq<Bytes>)
    ensures Frames(Wire(ps)) == ps && Tail(Wire(ps)) == [] <==> AllClean(ps)
  {
    FramesAreWire(Wire(ps));
    if AllClean(ps) {
      FramesUnique(ps, []);
      assert Wire(ps) + [] == Wire(ps);
    }
  }

  // ---------- chunks ----------

  function Concat(chunks: seq<Bytes>): Bytes {
    if chunks == [] then [] else Concat(chunks[..|chunks| - 1]) + chunks[|chunks| - 1]
  }

  /** What a receiver holds that accepts every frame: what it delivered, and what it still buffers. */
  datatype Receiver = Receiver(delivered: seq<Bytes>, buffer: Bytes)

  function Receive(r: Receiver, chunk: Bytes): Receiver {
    Receiver(r.delivered + Frames(r.buffer + chunk), Tail(r.buffer + chunk))
  }

  function ReceiveAll(chunks: seq<Bytes>): Receiver {
    if chunks == [] then Receiver([], []) else Receive(ReceiveAll(chunks[..|chunks| - 1]), chunks[|chunks| - 1])
  }

  /** However a stream is cut into chunks, its frames are delivered and its tail is buffered. */
  lemma {:induction false} ChunkingIrrelevant(chunks: seq<Bytes>)
    ensures ReceiveAll(chunks) == Receiver(Frames(Concat(chunks)), Tail(Concat(chunks)))
    decreases |chunks|
  {
    if chunks != [] {
      var before := chunks[..|chunks| - 1];
      ChunkingIrrelevant(before);
      FramesOfSum(Concat(before), chunks[|chunks| - 1]);
    }
  }

  /** Clean payloads come back in order, whatever chunks they travel in. */
  lemma ChunkedRoundTrip(ps: seq<Bytes>, chunks: seq<Bytes>)
    requires Concat(chunks) == Wire(ps) && AllClean(ps)
    ensures ReceiveAll(chunks) == Receiver(ps, [])
  {
    ChunkingIrrelevant(chunks);
    RoundTrip(ps);
  }

  // ---------- NUL ----------

  /** The first CR LF, whatever stands before it. */
  predicate PlainHit(s: Bytes, i: nat) {
    CrlfAt(s, i) && forall j :: 0 <= j < i ==> !CrlfAt(s, j)
  }

  function PlainFrom(s: Bytes, i: nat): (r: Option<nat>)
    requires i <= |s| && forall j :: 0 <= j < i ==> !CrlfAt(s, j)
    ensures r.Some? ==> PlainHit(s, r.value)
    ensures r.None? ==> forall j :: !CrlfAt(s, j)
    decreases |s| - i
  {
    if i == |s| then None else if CrlfAt(s, i) then Some(i) else PlainFrom(s, i + 1)
  }

  /** The frames of a stream that is split at every CR LF. */
  function PlainFrames(s: Bytes): seq<Bytes>
    decreases |s|
  {
    match PlainFrom(s, 0)
    case None => []
    case Some(i) => [s[..i]] + PlainFrames(s[i + 2..])
  }

  /** The number of frames before the first that has a NUL. */
  function NulFree(fs: seq<Bytes>): (n: nat)
    ensures n <= |fs|
    ensures forall i :: 0 <= i < n ==> NUL !in fs[i]
    ensures n < |fs| ==> NUL in fs[n]
  {
    if fs == [] || NUL in fs[0] then 0 else 1 + NulFree(fs[1..])
  }

  /** A first frame without NUL is the first frame delivered. */
  lemma FirstWithoutNul(s: Bytes, i: nat)
    requires PlainHit(s, i) && NUL !in s[..i]
    ensures Frames(s) == [s[..i]] + Frames(s[i + 2..])
  {
    assert forall j :: 0 <= j < i ==> s[j] == s[..i][j];
    ScanIs(s, i);
  }

  /** The scan delivers the frames before the first that has a NUL, and nothing after them. */
  lemma {:induction false} NulHoldsUp(s: Bytes)
    ensures Frames(s) == PlainFrames(s)[..NulFree(PlainFrames(s))]
    decreases |s|
  {
    match PlainFrom(s, 0)
    case None =>
      assert Scan(s) == None;
    case Some(i) =>
      var f, rest := s[..i], s[i + 2..];
      var later := PlainFrames(rest);
      assert PlainFrames(s) == [f] + later && ([f] + later)[1..] == later;
      if NUL in f {
        NulFirst(s, i);
      } else {
        FirstWithoutNul(s, i);
        NulHoldsUp(rest);
        assert [f] + later[..NulFree(later)] == ([f] + later)[..1 + NulFree(later)];
      }
  }

  /** A first frame with a NUL is not delivered. */
  lemma NulFirst(s: Bytes, i: nat)
    requires PlainHit(s, i) && NUL in s[..i]
    ensures Frames(s) == []
  {
    var j :| 0 <= j < i && s[..i][j] == NUL;
    assert s[j] == NUL;
  }

  /** The scan delivers every frame of the stream if and only if no frame has a NUL. */
  lemma NulExact(s: Bytes)
    ensures Frames(s) == PlainFrames(s) <==> forall f :: f in PlainFrames(s) ==> NUL !in f
  {
    NulHoldsUp(s);
    var fs := PlainFrames(s);
    var n := NulFree(fs);
    if n == |fs| {
      assert fs[..n] == fs;
    } else {
      assert fs[n] in fs && |fs[..n]| < |fs|;
    }
  }
}
