/**
 The receiving end of the control connection: a buffer that is written, scanned and compacted in
 place delivers exactly the frames of the stream.
 */
module JsonTcp {

  import opened Options
  import opened Framing

  const EINVAL: nat := 22

  /** A growing memory buffer: bytes up to `end`, written at `pos`. */
  class Mbuf {
    var buf: array<Byte>
    var pos: nat
    var end: nat

    ghost predicate Valid()
      reads this
    {
      pos <= end <= buf.Length
    }

    ghost function Content(): Bytes
      reads this, buf
      requires Valid()
    {
      buf[..end]
    }

    constructor (size: nat)
      ensures Valid() && fresh(buf) && pos == end == 0
    {
      buf := new Byte[size];
      pos, end := 0, 0;
    }

    /** Makes room for n bytes from pos on. */
    method Reserve(n: nat)
      requires Valid()
      modifies this`buf
      ensures Valid() && pos + n <= buf.Length && Content() == old(Content())
      ensures buf == old(buf) || fresh(buf)
    {
      if pos + n > buf.Length {
        var bigger := new Byte[pos + n];
        for i := 0 to end
          invariant Valid() && buf == old(buf) && Content() == old(Content())
          invariant bigger[..i] == buf[..i]
        {
          bigger[i] := buf[i];
        }
        buf := bigger;
      }
    }

    /** Appends bytes that come from elsewhere. */
    method Write(bytes: Bytes)
      requires Valid() && pos == end
      modifies this, buf
      ensures Valid() && pos == end && Content() == old(Content()) + bytes
      ensures buf == old(buf) || fresh(buf)
    {
      Reserve(|bytes|);
      ghost var before := Content();
      for i := 0 to |bytes|
        invariant Valid() && (buf == old(buf) || fresh(buf))
        invariant pos == end && pos + |bytes| <= buf.Length
        invariant buf[..pos + i] == before + bytes[..i]
      {
        buf[pos + i] := bytes[i];
      }
      pos := pos + |bytes|;
      end := pos;
    }

    method Rewind()
      modifies this`pos, this`end
      ensures Valid() && pos == end == 0
    {
      pos, end := 0, 0;
    }

    /** Writes n of the buffer's own bytes, from `from` on, to its beginning. */
    method MoveDown(from: nat, n: nat)
      requires Valid() && pos == end == 0 && from + n <= buf.Length
      modifies this`pos, this`end, buf
      ensures Valid() && pos == end == n && Content() == old(buf[from..from + n])
    {
      for i := 0 to n
        invariant buf[..i] == old(buf[from..from + i])
        invariant from > 0 ==> buf[from + i..] == old(buf[from + i..])
        invariant from == 0 ==> buf[..] == old(buf[..])
      {
        assert buf[from + i] == old(buf[from + i]) by {
          assert from > 0 ==> buf[from + i..][0] == old(buf[from + i..])[0];
        }
        buf[i] := buf[from + i];
      }
      pos, end := n, n;
    }
  }

  /** An index of a part of the buffer as an index of the buffer. */
  function Shifted(r: Option<nat>, from: nat): Option<nat> {
    match r
    case None => None
    case Some(i) => Some(from + i)
  }

  /** The first CR LF in n bytes from `from` on; the search stops at NUL. */
  method Strnstr(buf: array<Byte>, from: nat, n: nat) returns (r: Option<nat>)
    requires from + n <= buf.Length
    ensures r == Shifted(Scan(buf[from..from + n]), from)
  {
    ghost var s := buf[from..from + n];
    for i := 0 to n
      invariant forall j :: 0 <= j < i ==> s[j] != NUL && !CrlfAt(s, j)
    {
      if i + 1 >= n || buf[from + i] == NUL {
        if Scan(s).Some? {
          assert false;
        }
        return None;
      }
      if buf[from + i] == CR && buf[from + i + 1] == LF {
        ScanIs(s, i);
        return Some(from + i);
      }
    }
    r := None;
  }

  /** The number of leading frames that decode to a non-empty object. */
  function Accepted(fs: seq<Bytes>, decodes: Bytes -> bool): (n: nat)
    ensures n <= |fs|
    ensures forall k :: 0 <= k < n ==> decodes(fs[k])
    ensures n < |fs| ==> !decodes(fs[n])
  {
    if fs == [] || !decodes(fs[0]) then 0 else 1 + Accepted(fs[1..], decodes)
  }

  lemma {:induction false} AcceptedSum(a: seq<Bytes>, b: seq<Bytes>, decodes: Bytes -> bool)
    requires forall k :: 0 <= k < |a| ==> decodes(a[k])
    ensures Accepted(a + b, decodes) == |a| + Accepted(b, decodes)
  {
    if a == [] {
      assert a + b == b;
    } else {
      assert (a + b)[1..] == a[1..] + b;
      AcceptedSum(a[1..], b, decodes);
    }
  }

  /** The frames of a stream before the first that does not decode. */
  function Delivered(s: Bytes, decodes: Bytes -> bool): seq<Bytes> {
    Frames(s)[..Accepted(Frames(s), decodes)]
  }

  predicate AllDecode(s: Bytes, decodes: Bytes -> bool) {
    Accepted(Frames(s), decodes) == |Frames(s)|
  }

  /** What is delivered are frames from the first on, all of which decode, and the one after them does not. */
  lemma DeliveredExact(s: Bytes, decodes: Bytes -> bool)
    ensures var fs, ds := Frames(s), Delivered(s, decodes);
            && ds <= fs && (forall k :: 0 <= k < |ds| ==> decodes(ds[k]))
            && (|ds| < |fs| ==> !decodes(fs[|ds|]))
            && (AllDecode(s, decodes) <==> ds == fs)
  {
    var n := Accepted(Frames(s), decodes);
    assert Frames(s)[..|Frames(s)|] == Frames(s);
  }

  /** A chunk is received as the tail of the stream with the chunk behind it would be. */
  lemma ReceiveLaw(s: Bytes, chunk: Bytes, decodes: Bytes -> bool)
    requires AllDecode(s, decodes)
    ensures Delivered(s + chunk, decodes) == Delivered(s, decodes) + Delivered(Tail(s) + chunk, decodes)
    ensures AllDecode(s + chunk, decodes) == AllDecode(Tail(s) + chunk, decodes)
    ensures Tail(s + chunk) == Tail(Tail(s) + chunk)
  {
    FramesOfSum(s, chunk);
    var before, now := Frames(s), Frames(Tail(s) + chunk);
    AcceptedSum(before, now, decodes);
    PrefixOfSum(before, now, Accepted(now, decodes));
  }

  lemma PrefixOfSum(a: seq<Bytes>, b: seq<Bytes>, n: nat)
    requires n <= |b|
    ensures (a + b)[..|a| + n] == a + b[..n] && a[..|a|] == a
  {
  }

  /** The frames `done` were taken from `all`, and `rest` is left. */
  ghost predicate Taken(all: Bytes, done: seq<Bytes>, rest: Bytes, decodes: Bytes -> bool) {
    && Frames(all) == done + Frames(rest) && Tail(all) == Tail(rest)
    && forall k :: 0 <= k < |done| ==> decodes(done[k])
  }

  lemma TakenNone(all: Bytes, decodes: Bytes -> bool)
    ensures Taken(all, [], all, decodes)
  {
    assert [] + Frames(all) == Frames(all);
  }

  lemma TakeOne(all: Bytes, done: seq<Bytes>, rest: Bytes, decodes: Bytes -> bool, l: nat)
    requires Taken(all, done, rest, decodes) && Scan(rest) == Some(l)
    ensures l + 2 <= |rest|
    ensures decodes(rest[..l]) ==> Taken(all, done + [rest[..l]], rest[l + 2..], decodes)
    ensures !decodes(rest[..l]) ==> done == Delivered(all, decodes) && !AllDecode(all, decodes)
  {
    var p, more := rest[..l], Frames(rest[l + 2..]);
    assert Frames(rest) == [p] + more;
    if decodes(p) {
      assert done + ([p] + more) == done + [p] + more;
    } else {
      AcceptedSum(done, [p] + more, decodes);
      assert (done + ([p] + more))[..|done|] == done;
    }
  }

  lemma TakenAll(all: Bytes, done: seq<Bytes>, rest: Bytes, decodes: Bytes -> bool)
    requires Taken(all, done, rest, decodes) && Scan(rest) == None
    ensures done == Delivered(all, decodes) && AllDecode(all, decodes) && rest == Tail(all)
  {
    AcceptedSum(done, [], decodes);
    assert done + [] == done;
  }

  class Connection {
    /** Whether a payload decodes to an object that is not empty. */
    const decodes: Bytes -> bool
    var rcvbuf: Mbuf
    /** The number of frames received. */
    var nRx: nat
    /** The frames handed to the frame handler. */
    var delivered: seq<Bytes>
    /** Everything received, and whether every frame so far decoded. */
    ghost var stream: Bytes
    ghost var open: bool

    /**
     What was delivered is the frames of the stream up to the first that does not decode; that one is
     counted too. While there is none, the buffer holds the tail of the stream.
     */
    ghost predicate Valid()
      reads this, rcvbuf, rcvbuf.buf
    {
      && rcvbuf.Valid() && rcvbuf.pos == rcvbuf.end
      && open == AllDecode(stream, decodes)
      && delivered == Delivered(stream, decodes) && nRx == |delivered| + (if open then 0 else 1)
      && (open ==> rcvbuf.Content() == Tail(stream))
    }

    constructor (decodes: Bytes -> bool)
      ensures Valid() && open && stream == [] && this.decodes == decodes
      ensures fresh(rcvbuf) && fresh(rcvbuf.buf)
    {
      this.decodes := decodes;
      rcvbuf := new Mbuf(0);
      nRx, delivered, stream, open := 0, [], [], true;
      new;
      assert Tail(stream) == [] && Frames(stream) == [];
    }

    /** Takes the frame at recv..rn out of the buffer; the bytes after its end stay. */
    method Cut(recv: nat, rn: nat) returns (payload: Bytes)
      requires rcvbuf.Valid() && recv <= rn && rn + 2 <= rcvbuf.end
      modifies rcvbuf.buf
      ensures payload == old(rcvbuf.buf[recv..rn])
      ensures rcvbuf.buf[rn + 2..rcvbuf.end] == old(rcvbuf.buf[rn + 2..rcvbuf.end])
    {
      payload := rcvbuf.buf[recv..rn];
      rcvbuf.buf[rn] := NUL;
    }

    /** Counts a frame, and delivers it if it decodes. */
    method Handle(payload: Bytes) returns (ok: bool)
      modifies this`nRx, this`delivered
      ensures nRx == old(nRx) + 1 && ok == decodes(payload)
      ensures delivered == old(delivered) + if ok then [payload] else []
    {
      nRx := nRx + 1;
      ok := decodes(payload);
      if ok {
        delivered := delivered + [payload];
      }
    }

    /** Keeps only the n bytes from recv on. */
    method Compact(recv: nat, n: nat)
      requires rcvbuf.Valid() && rcvbuf.pos == rcvbuf.end == recv + n
      modifies rcvbuf, rcvbuf.buf
      ensures rcvbuf.Valid() && rcvbuf.pos == rcvbuf.end && rcvbuf.buf == old(rcvbuf.buf)
      ensures rcvbuf.Content() == old(rcvbuf.buf[recv..recv + n])
    {
      if n != rcvbuf.end {
        rcvbuf.Rewind();
        if n != 0 {
          rcvbuf.MoveDown(recv, n);
        }
      }
    }

    /** `rest` is in the buffer from recv on, and its first frame ends at rn, if it has one. */
    ghost predicate ReadsAt(recv: nat, recvSize: nat, rn: Option<nat>, rest: Bytes)
      reads this, rcvbuf, rcvbuf.buf
    {
      && rcvbuf.Valid() && recv + recvSize == rcvbuf.end
      && rcvbuf.buf[recv..rcvbuf.end] == rest && rn == Shifted(Scan(rest), recv)
    }

    /** The frames `done` of `all` were delivered and counted on top of `before`. */
    ghost predicate Tally(before: seq<Bytes>, count: nat, all: Bytes, done: seq<Bytes>, rest: Bytes)
      reads this
    {
      Taken(all, done, rest, decodes) && delivered == before + done && nRx == count + |done|
    }

    /** Looks for the end of the first frame in the buffer. */
    method FirstEnd() returns (rn: Option<nat>)
      requires rcvbuf.Valid()
      ensures ReadsAt(0, rcvbuf.end, rn, rcvbuf.Content())
      ensures Tally(delivered, nRx, rcvbuf.Content(), [], rcvbuf.Content())
    {
      rn := Strnstr(rcvbuf.buf, 0, rcvbuf.end);
      TakenNone(rcvbuf.Content(), decodes);
      assert rcvbuf.buf[0..rcvbuf.end] == rcvbuf.Content() && delivered + [] == delivered;
    }

    /** Takes and handles the frame at recv..rn, and looks for the end of the one after it. */
    method Advance(recv: nat, recvSize: nat, rn: nat, ghost rest: Bytes) returns (ok: bool, next: Option<nat>)
      requires ReadsAt(recv, recvSize, Some(rn), rest)
      modifies this`nRx, this`delivered, rcvbuf.buf
      ensures recv <= rn && rn + 2 <= rcvbuf.end && rn - recv + 2 <= |rest| && Scan(rest) == Some(rn - recv)
      ensures nRx == old(nRx) + 1 && ok == decodes(rest[..rn - recv])
      ensures delivered == old(delivered) + if ok then [rest[..rn - recv]] else []
      ensures ok ==> ReadsAt(rn + 2, rcvbuf.end - (rn + 2), next, rest[rn - recv + 2..])
    {
      var payload := Cut(recv, rn);
      assert payload == rest[..rn - recv];
      ok := Handle(payload);
      next := None;
      assert rcvbuf.buf[rn + 2..rcvbuf.end] == rest[rn - recv + 2..];
      if ok {
        next := Strnstr(rcvbuf.buf, rn + 2, rcvbuf.end - (rn + 2));
      }
    }

    /** One turn of the loop that delivers frames. */
    method Turn(recv: nat, recvSize: nat, rn: nat, ghost before: seq<Bytes>, ghost count: nat,
                ghost all: Bytes, ghost done: seq<Bytes>, ghost rest: Bytes)
      returns (ok: bool, next: Option<nat>, ghost done': seq<Bytes>, ghost rest': Bytes)
      requires ReadsAt(recv, recvSize, Some(rn), rest) && Tally(before, count, all, done, rest)
      modifies this`nRx, this`delivered, rcvbuf.buf
      ensures recv <= rn && rn + 2 <= rcvbuf.end && rn - recv + 2 <= recvSize
      ensures ok ==> && ReadsAt(rn + 2, recvSize - (rn - recv + 2), next, rest')
                     && Tally(before, count, all, done', rest')
      ensures !ok ==> && done == Delivered(all, decodes) && !AllDecode(all, decodes)
                      && delivered == before + done && nRx == count + |done| + 1
    {
      ok, next := Advance(recv, recvSize, rn, rest);
      done', rest' := done + [rest[..rn - recv]], rest[rn - recv + 2..];
      TakeOne(all, done, rest, decodes, rn - recv);
      assert before + done + [rest[..rn - recv]] == before + (done + [rest[..rn - recv]]);
    }

    /** Delivers the frames of the buffer up to the first that does not decode; recvSize bytes are left at recv. */
    method Extract() returns (ok: bool, recv: nat, recvSize: nat, ghost done: seq<Bytes>)
      requires rcvbuf.Valid()
      modifies this`nRx, this`delivered, rcvbuf.buf
      ensures rcvbuf.Valid() && recv + recvSize == rcvbuf.end
      ensures done == Delivered(old(rcvbuf.Content()), decodes) && ok == AllDecode(old(rcvbuf.Content()), decodes)
      ensures delivered == old(delivered) + done && nRx == old(nRx) + |done| + if ok then 0 else 1
      ensures ok ==> rcvbuf.buf[recv..rcvbuf.end] == Tail(old(rcvbuf.Content()))
    {
      ghost var all, before, count := rcvbuf.Content(), delivered, nRx;
      ghost var rest := all;
      recv, recvSize, done := 0, rcvbuf.end, [];
      var rn: Option<nat> := FirstEnd();
      while rn.Some?
        invariant ReadsAt(recv, recvSize, rn, rest) && Tally(before, count, all, done, rest)
        decreases recvSize
      {
        var next: Option<nat>;
        ghost var done', rest';
        ok, next, done', rest' := Turn(recv, recvSize, rn.value, before, count, all, done, rest);
        if !ok {
          return;
        }
        done, rest := done', rest';
        var l := rn.value - recv;
        l := l + 2;
        recvSize := recvSize - l;
        recv := recv + l;
        rn := next;
      }
      TakenAll(all, done, rest, decodes);
      ok := true;
    }

    /** A chunk arrives; the connection stops with an error at a frame that does not decode. */
    method Receive(chunk: Bytes) returns (err: nat)
      requires Valid() && open
      modifies this, rcvbuf, rcvbuf.buf
      ensures Valid() && stream == old(stream) + chunk
      ensures err == if open then 0 else EINVAL
      ensures rcvbuf == old(rcvbuf) && (rcvbuf.buf == old(rcvbuf.buf) || fresh(rcvbuf.buf))
    {
      ghost var was := stream;
      ReceiveLaw(was, chunk, decodes);
      rcvbuf.Write(chunk);
      stream := stream + chunk;
      assert rcvbuf.Content() == Tail(was) + chunk;
      var ok, recv, recvSize, done := Extract();
      if ok {
        Compact(recv, recvSize);
        err := 0;
      } else {
        open := false;
        err := EINVAL;
      }
    }
  }
}
