/**
  What a transmitter has put and is still to put on its line, as a list of pieces of the frames sent.  A
  flush takes a range of bytes out of it: the pieces on either side stay, cut where the range cuts them.
 */
module TxLine {
  import opened Bytes

  // A socket buffer in the queue: its type and the bytes of its frame that are not yet written.
  datatype Buf = Buf(kind: byte, rest: seq<byte>)

  function Flat(bufs: seq<Buf>): seq<byte> {
    if bufs == [] then [] else bufs[0].rest + Flat(bufs[1..])
  }

  function CountKind(bufs: seq<Buf>, kind: byte): nat {
    if bufs == [] then 0 else (if bufs[0].kind == kind then 1 else 0) + CountKind(bufs[1..], kind)
  }

  /** Bytes from..to of the frame that was sent as number id. */
  datatype Slice = Slice(id: nat, frame: Buf, from: nat, to: nat) {
    predicate Whole() {
      from == 0 && to == |frame.rest|
    }
  }

  type Piece = p: Slice | p.from < p.to <= |p.frame.rest| witness Slice(0, Buf(0, [0]), 0, 1)

  function Size(p: Piece): nat {
    p.to - p.from
  }

  function AsBuf(p: Piece): Buf {
    Buf(p.frame.kind, p.frame.rest[p.from..p.to])
  }

  function AsBufs(ps: seq<Piece>): seq<Buf> {
    seq(|ps|, i requires 0 <= i < |ps| => AsBuf(ps[i]))
  }

  function Line(ps: seq<Piece>): seq<byte> {
    if ps == [] then [] else AsBuf(ps[0]).rest + Line(ps[1..])
  }

  /** The pieces of the first n bytes. */
  function Kept(ps: seq<Piece>, n: nat): seq<Piece> {
    if ps == [] || n == 0 then []
    else if n < Size(ps[0]) then [ps[0].(to := ps[0].from + n)]
    else [ps[0]] + Kept(ps[1..], n - Size(ps[0]))
  }

  /** The pieces of all but the first n bytes. */
  function Left(ps: seq<Piece>, n: nat): seq<Piece> {
    if ps == [] || n == 0 then ps
    else if n < Size(ps[0]) then [ps[0].(from := ps[0].from + n)] + ps[1..]
    else Left(ps[1..], n - Size(ps[0]))
  }

  /** Bytes n..m are taken out. */
  function Discard(ps: seq<Piece>, n: nat, m: nat): seq<Piece> {
    if n == m then ps else Kept(ps, n) + Left(ps, m)
  }

  /** A piece ends after n bytes. */
  predicate Boundary(ps: seq<Piece>, n: nat) {
    n == 0 || (ps != [] && Size(ps[0]) <= n && Boundary(ps[1..], n - Size(ps[0])))
  }

  ghost predicate AllWhole(ps: seq<Piece>) {
    forall p <- ps :: p.Whole()
  }

  /** From byte at of frame id on, the pieces come in the order of sending, and none overlaps another. */
  predicate InOrder(ps: seq<Piece>, id: nat, at: nat) {
    ps == [] || (
      && (id < ps[0].id || (id == ps[0].id && at <= ps[0].from))
      && InOrder(ps[1..], ps[0].id, ps[0].to))
  }

  /** Every piece is one of a frame that was sent. */
  ghost predicate Genuine(ps: seq<Piece>, offered: seq<Buf>) {
    forall p <- ps :: p.id < |offered| && p.frame == offered[p.id]
  }

  function WholePiece(id: nat, frame: Buf): Piece
    requires frame.rest != []
  {
    Slice(id, frame, 0, |frame.rest|)
  }

  /* ---- Lists of buffers ---- */

  lemma {:induction false} FlatJoin(a: seq<Buf>, b: seq<Buf>)
    ensures Flat(a + b) == Flat(a) + Flat(b)
  {
    if a == [] {
      assert a + b == b;
    } else {
      assert (a + b)[1..] == a[1..] + b;
      FlatJoin(a[1..], b);
    }
  }

  lemma {:induction false} FlatOne(buf: Buf)
    ensures Flat([buf]) == buf.rest
  {
    assert Flat([buf]) == buf.rest + Flat([]);
  }

  lemma {:induction false} CountJoin(a: seq<Buf>, b: seq<Buf>, kind: byte)
    ensures CountKind(a + b, kind) == CountKind(a, kind) + CountKind(b, kind)
  {
    if a == [] {
      assert a + b == b;
    } else {
      assert (a + b)[1..] == a[1..] + b;
      CountJoin(a[1..], b, kind);
    }
  }

  /* ---- Lists of pieces ---- */

  lemma {:induction false} LineFlat(ps: seq<Piece>)
    ensures Flat(AsBufs(ps)) == Line(ps)
  {
    if ps != [] {
      assert AsBufs(ps)[1..] == AsBufs(ps[1..]);
      LineFlat(ps[1..]);
    }
  }

  lemma {:induction false} LineJoin(a: seq<Piece>, b: seq<Piece>)
    ensures Line(a + b) == Line(a) + Line(b)
  {
    if a == [] {
      assert a + b == b;
    } else {
      assert (a + b)[1..] == a[1..] + b;
      LineJoin(a[1..], b);
    }
  }

  lemma {:induction false} LineOne(p: Piece)
    ensures Line([p]) == AsBuf(p).rest
  {
    assert Line([p]) == AsBuf(p).rest + Line([]);
  }

  lemma {:induction false} LineFirst(ps: seq<Piece>)
    requires ps != []
    ensures |Line(ps)| == Size(ps[0]) + |Line(ps[1..])|
  {
  }

  lemma {:induction false} KeptLine(ps: seq<Piece>, n: nat)
    requires n <= |Line(ps)|
    ensures Line(Kept(ps, n)) == Line(ps)[..n]
  {
    if ps != [] && n > 0 {
      LineFirst(ps);
      if n < Size(ps[0]) {
        LineOne(ps[0].(to := ps[0].from + n));
      } else {
        KeptLine(ps[1..], n - Size(ps[0]));
      }
    }
  }

  lemma {:induction false} LeftLine(ps: seq<Piece>, n: nat)
    requires n <= |Line(ps)|
    ensures Line(Left(ps, n)) == Line(ps)[n..]
  {
    if ps != [] && n > 0 {
      LineFirst(ps);
      if n >= Size(ps[0]) {
        LeftLine(ps[1..], n - Size(ps[0]));
      }
    }
  }

  lemma {:induction false} LeftJoin(ps: seq<Piece>, n: nat, more: seq<Piece>)
    requires n <= |Line(ps)|
    ensures Left(ps + more, n) == Left(ps, n) + more
  {
    if ps == [] {
      assert ps + more == more;
    } else if n > 0 {
      LineFirst(ps);
      assert (ps + more)[1..] == ps[1..] + more;
      if n >= Size(ps[0]) {
        LeftJoin(ps[1..], n - Size(ps[0]), more);
      }
    }
  }

  lemma {:induction false} LeftMore(ps: seq<Piece>, n: nat, k: nat)
    requires n <= |Line(ps)|
    ensures Left(ps, n + k) == Left(Left(ps, n), k)
  {
    if ps != [] && n > 0 {
      LineFirst(ps);
      if n >= Size(ps[0]) {
        LeftMore(ps[1..], n - Size(ps[0]), k);
      }
    }
  }

  lemma {:induction false} LeftOfKept(ps: seq<Piece>, k: nat, n: nat)
    requires k <= n <= |Line(ps)|
    ensures Left(Kept(ps, n), k) == Kept(Left(ps, k), n - k)
  {
    if k > 0 {
      LineFirst(ps);
      if k >= Size(ps[0]) {
        LeftOfKept(ps[1..], k - Size(ps[0]), n - Size(ps[0]));
      }
    }
  }

  /** Taking a range out of what is to come leaves what is before it alone. */
  lemma {:induction false} LeftDiscard(ps: seq<Piece>, k: nat, n: nat, m: nat)
    requires k <= n <= m <= |Line(ps)|
    ensures Left(Discard(ps, n, m), k) == Discard(Left(ps, k), n - k, m - k)
  {
    if n < m {
      LeftMore(ps, k, m - k);
      KeptLine(ps, n);
      LeftJoin(Kept(ps, n), k, Left(ps, m));
      LeftOfKept(ps, k, n);
    }
  }

  lemma {:induction false} DiscardLine(ps: seq<Piece>, n: nat, m: nat)
    requires n <= m <= |Line(ps)|
    ensures Line(Discard(ps, n, m)) == Line(ps)[..n] + Line(ps)[m..]
  {
    if n < m {
      LineJoin(Kept(ps, n), Left(ps, m));
      KeptLine(ps, n);
      LeftLine(ps, m);
    }
  }

  /* ---- The account of what is out and what waits ---- */

  /** These bytes are the beginning of the line, and these buffers the rest of it. */
  ghost predicate Balanced(sent: seq<Piece>, out: seq<byte>, waiting: seq<Buf>) {
    out <= Line(sent) && waiting == AsBufs(Left(sent, |out|))
  }

  lemma {:induction false} BalancedBytes(sent: seq<Piece>, out: seq<byte>, waiting: seq<Buf>)
    requires Balanced(sent, out, waiting)
    ensures out + Flat(waiting) == Line(sent)
    ensures forall i :: 0 <= i < |waiting| ==> waiting[i].rest != []
  {
    LeftLine(sent, |out|);
    LineFlat(Left(sent, |out|));
  }

  lemma {:induction false} SendMore(sent: seq<Piece>, out: seq<byte>, waiting: seq<Buf>, p: Piece)
    requires Balanced(sent, out, waiting)
    ensures Balanced(sent + [p], out, waiting + [AsBuf(p)])
  {
    hide Left;
    LeftJoin(sent, |out|, [p]);
    LineJoin(sent, [p]);
    assert AsBufs(Left(sent, |out|) + [p]) == waiting + [AsBuf(p)];
  }

  // A write of n bytes, in the list of what is left.
  lemma {:induction false} LeftWritten(left: seq<Piece>, n: nat)
    requires left != [] && n <= Size(left[0])
    ensures Line(left)[..n] == AsBuf(left[0]).rest[..n]
    ensures AsBufs(Left(left, n)) ==
            (if n == Size(left[0]) then [] else [Buf(left[0].frame.kind, AsBuf(left[0]).rest[n..])]) + AsBufs(left[1..])
  {
    if n == Size(left[0]) {
      assert Left(left[1..], 0) == left[1..];
    } else {
      var first := left[0].(from := left[0].from + n);
      assert Left(left, n) == [first] + left[1..];
      assert AsBuf(first).rest == AsBuf(left[0]).rest[n..];
    }
  }

  lemma {:induction false} WriteMore(sent: seq<Piece>, out: seq<byte>, waiting: seq<Buf>, n: nat)
    requires Balanced(sent, out, waiting) && waiting != [] && n <= |waiting[0].rest|
    ensures var Buf(kind, rest) := waiting[0];
            Balanced(sent, out + rest[..n], (if n == |rest| then [] else [Buf(kind, rest[n..])]) + waiting[1..])
  {
    hide Left;
    var left := Left(sent, |out|);
    assert waiting[0] == AsBuf(left[0]) && waiting[1..] == AsBufs(left[1..]);
    LeftWritten(left, n);
    LeftLine(sent, |out|);
    LeftMore(sent, |out|, n);
    assert Line(sent)[..|out| + n] == Line(sent)[..|out|] + Line(sent)[|out|..][..n];
  }

  /** The last bytes that are out are taken back. */
  lemma {:induction false} TakeBack(sent: seq<Piece>, out: seq<byte>, waiting: seq<Buf>, n: nat)
    requires Balanced(sent, out, waiting) && n <= |out|
    ensures Balanced(Discard(sent, n, |out|), out[..n], waiting)
  {
    DiscardLine(sent, n, |out|);
    LeftDiscard(sent, n, n, |out|);
    LeftMore(sent, n, |out| - n);
    NoneKept(Left(sent, n));
    hide Left, Kept;
    var left := Left(sent, n);
    assert [] + Left(left, |out| - n) == Left(left, |out| - n);
  }

  lemma {:induction false} NoneKept(ps: seq<Piece>)
    ensures Kept(ps, 0) == [] && Left(ps, 0) == ps
  {
  }

  /** The first buffer behind these, none or one, is dropped. */
  lemma {:induction false} TakeOut(sent: seq<Piece>, out: seq<byte>, ahead: seq<Buf>, queue: seq<Buf>)
    requires Balanced(sent, out, ahead + queue) && |ahead| <= 1 && queue != []
    ensures var n := |out| + |Flat(ahead)|; Balanced(Discard(sent, n, n + |queue[0].rest|), out, ahead + queue[1..])
  {
    var n := |out| + |Flat(ahead)|;
    FirstQueued(sent, out, ahead, queue);
    hide Left, Flat, Line, Discard, AsBufs;
    DiscardLine(sent, n, n + |queue[0].rest|);
    StaysPrefix(out, Line(sent), n, n + |queue[0].rest|);
    LeftDiscard(sent, |out|, n, n + |queue[0].rest|);
    DropQueued(Left(sent, |out|), ahead, queue);
  }

  lemma {:induction false} StaysPrefix(out: seq<byte>, line: seq<byte>, n: nat, m: nat)
    requires out <= line && |out| <= n <= m <= |line|
    ensures out <= line[..n] + line[m..]
  {
  }

  lemma {:induction false} FirstQueued(sent: seq<Piece>, out: seq<byte>, ahead: seq<Buf>, queue: seq<Buf>)
    requires Balanced(sent, out, ahead + queue) && queue != []
    ensures queue[0].rest != [] && |out| + |Flat(ahead)| + |queue[0].rest| <= |Line(sent)|
  {
    BalancedBytes(sent, out, ahead + queue);
    FlatJoin(ahead, queue);
    assert queue[0] == (ahead + queue)[|ahead|];
  }

  lemma {:induction false} AsBufsFrom(ps: seq<Piece>, k: nat)
    requires k <= |ps|
    ensures AsBufs(ps[k..]) == AsBufs(ps)[k..]
  {
  }

  lemma {:induction false} DropQueued(left: seq<Piece>, ahead: seq<Buf>, queue: seq<Buf>)
    requires |ahead| <= 1 && queue != [] && AsBufs(left) == ahead + queue
    ensures var n := |Flat(ahead)|; AsBufs(Discard(left, n, n + |queue[0].rest|)) == ahead + queue[1..]
  {
    assert Flat([]) == [];
    hide Discard, Flat;
    AsBufsFrom(left, |ahead| + 1);
    assert (ahead + queue)[|ahead| + 1..] == queue[1..];
    assert AsBuf(left[|ahead|]) == (ahead + queue)[|ahead|] == queue[0];
    if ahead == [] {
      DiscardFirst(left[0], left[1..]);
      assert left == [left[0]] + left[1..];
    } else {
      FlatOne(ahead[0]);
      assert AsBuf(left[0]) == (ahead + queue)[0] == ahead[0] && ahead == [ahead[0]];
      assert left == [left[0], left[1]] + left[2..];
      DiscardSecond(left[0], left[1], left[2..]);
      assert AsBufs([left[0]] + left[2..]) == [AsBuf(left[0])] + AsBufs(left[2..]);
    }
  }

  lemma {:induction false} DiscardFirst(first: Piece, tail: seq<Piece>)
    ensures Discard([first] + tail, 0, Size(first)) == tail
  {
    assert ([first] + tail)[1..] == tail && Left(tail, 0) == tail;
  }

  lemma {:induction false} DiscardSecond(first: Piece, second: Piece, tail: seq<Piece>)
    ensures Discard([first, second] + tail, Size(first), Size(first) + Size(second)) == [first] + tail
  {
    var ps := [first, second] + tail;
    assert ps[0] == first && ps[1..][0] == second && ps[1..][1..] == tail;
    assert Kept(ps, Size(first)) == [first] + Kept(ps[1..], 0) == [first];
    assert Left(ps[1..], Size(second)) == Left(tail, 0) == tail;
  }

  /* ---- Order and origin ---- */

  lemma {:induction false} InOrderEarlier(ps: seq<Piece>, id: nat, at: nat, earlierId: nat, earlierAt: nat)
    requires InOrder(ps, id, at) && (earlierId < id || (earlierId == id && earlierAt <= at))
    ensures InOrder(ps, earlierId, earlierAt)
  {
  }

  lemma {:induction false} LeftInOrder(ps: seq<Piece>, n: nat, id: nat, at: nat)
    requires InOrder(ps, id, at)
    ensures InOrder(Left(ps, n), id, at)
  {
    if ps != [] && n >= Size(ps[0]) {
      LeftInOrder(ps[1..], n - Size(ps[0]), ps[0].id, ps[0].to);
      InOrderEarlier(Left(ps, n), ps[0].id, ps[0].to, id, at);
    }
  }

  lemma {:induction false} DiscardInOrder(ps: seq<Piece>, n: nat, m: nat, id: nat, at: nat)
    requires n <= m <= |Line(ps)| && InOrder(ps, id, at)
    ensures InOrder(Kept(ps, n) + Left(ps, m), id, at)
  {
    var whole := Kept(ps, n) + Left(ps, m);
    if ps == [] || n == 0 {
      assert whole == Left(ps, m);
      LeftInOrder(ps, m, id, at);
    } else {
      LineFirst(ps);
      if n < Size(ps[0]) {
        assert whole[1..] == Left(ps, m);
        if m >= Size(ps[0]) {
          LeftInOrder(ps[1..], m - Size(ps[0]), ps[0].id, ps[0].to);
          InOrderEarlier(Left(ps, m), ps[0].id, ps[0].to, ps[0].id, ps[0].from + n);
        }
      } else {
        assert whole[1..] == Kept(ps[1..], n - Size(ps[0])) + Left(ps[1..], m - Size(ps[0]));
        DiscardInOrder(ps[1..], n - Size(ps[0]), m - Size(ps[0]), ps[0].id, ps[0].to);
      }
    }
  }

  lemma {:induction false} InOrderSnoc(ps: seq<Piece>, p: Piece, id: nat, at: nat)
    requires InOrder(ps, id, at) && (id < p.id || (id == p.id && at <= p.from))
    requires forall q <- ps :: q.id < p.id
    ensures InOrder(ps + [p], id, at)
  {
    if ps != [] {
      assert (ps + [p])[1..] == ps[1..] + [p];
      InOrderSnoc(ps[1..], p, ps[0].id, ps[0].to);
    }
  }

  lemma {:induction false} KeptGenuine(ps: seq<Piece>, n: nat, offered: seq<Buf>)
    requires Genuine(ps, offered)
    ensures Genuine(Kept(ps, n), offered)
  {
    if ps != [] && n > 0 {
      assert ps[0] in ps;
      if n >= Size(ps[0]) {
        KeptGenuine(ps[1..], n - Size(ps[0]), offered);
      }
    }
  }

  lemma {:induction false} LeftGenuine(ps: seq<Piece>, n: nat, offered: seq<Buf>)
    requires Genuine(ps, offered)
    ensures Genuine(Left(ps, n), offered)
  {
    if ps != [] && n > 0 {
      assert ps[0] in ps;
      if n >= Size(ps[0]) {
        LeftGenuine(ps[1..], n - Size(ps[0]), offered);
      }
    }
  }

  lemma {:induction false} DiscardGenuine(ps: seq<Piece>, n: nat, m: nat, offered: seq<Buf>)
    requires Genuine(ps, offered)
    ensures Genuine(Discard(ps, n, m), offered)
  {
    KeptGenuine(ps, n, offered);
    LeftGenuine(ps, m, offered);
  }

  /* ---- Whole frames ---- */

  lemma {:induction false} KeptWholeIff(ps: seq<Piece>, n: nat)
    requires AllWhole(ps) && n <= |Line(ps)|
    ensures AllWhole(Kept(ps, n)) <==> Boundary(ps, n)
  {
    if ps != [] && n > 0 {
      LineFirst(ps);
      assert ps[0] in ps;
      if n < Size(ps[0]) {
        assert Kept(ps, n)[0] in Kept(ps, n);
      } else {
        var rest := Kept(ps[1..], n - Size(ps[0]));
        KeptWholeIff(ps[1..], n - Size(ps[0]));
        assert Kept(ps, n)[1..] == rest;
        assert forall p <- rest :: p in Kept(ps, n);
      }
    }
  }

  lemma {:induction false} LeftWholeIff(ps: seq<Piece>, n: nat)
    requires AllWhole(ps) && n <= |Line(ps)|
    ensures AllWhole(Left(ps, n)) <==> Boundary(ps, n)
  {
    if ps != [] && n > 0 {
      LineFirst(ps);
      assert ps[0] in ps;
      if n < Size(ps[0]) {
        assert Left(ps, n)[0] in Left(ps, n);
      } else {
        LeftWholeIff(ps[1..], n - Size(ps[0]));
      }
    }
  }

  /** Taking a range out of whole frames leaves whole frames if and only if it starts and ends between two frames. */
  lemma {:induction false} DiscardWholeIff(ps: seq<Piece>, n: nat, m: nat)
    requires AllWhole(ps) && n <= m <= |Line(ps)|
    ensures AllWhole(Discard(ps, n, m)) <==> n == m || (Boundary(ps, n) && Boundary(ps, m))
  {
    if n < m {
      KeptWholeIff(ps, n);
      LeftWholeIff(ps, m);
      var kept, left := Kept(ps, n), Left(ps, m);
      assert forall p :: p in kept + left <==> p in kept || p in left;
    }
  }

  // What is left of the first piece ends where the piece ended.
  lemma {:induction false} NextBoundary(ps: seq<Piece>, n: nat)
    requires n < |Line(ps)|
    ensures Left(ps, n) != [] && Boundary(ps, n + Size(Left(ps, n)[0]))
  {
    LineFirst(ps);
    if n >= Size(ps[0]) {
      NextBoundary(ps[1..], n - Size(ps[0]));
    }
  }

  lemma {:induction false} FirstEndsPiece(sent: seq<Piece>, out: seq<byte>, waiting: seq<Buf>)
    requires Balanced(sent, out, waiting) && waiting != []
    ensures Boundary(sent, |out| + |waiting[0].rest|)
    ensures Balanced(sent, out + waiting[0].rest, waiting[1..])
  {
    assert Flat([]) == [] && [] + waiting == waiting;
    hide Flat, Line, Boundary, Left;
    FirstQueued(sent, out, [], waiting);
    NextBoundary(sent, |out|);
    var rest := waiting[0].rest;
    assert waiting[0] == AsBuf(Left(sent, |out|)[0]) && rest[..|rest|] == rest;
    WriteMore(sent, out, waiting, |rest|);
    assert [] + waiting[1..] == waiting[1..];
  }

  /** Dropping a queued buffer cuts a frame if and only if it is itself the rest of one. */
  lemma {:induction false} DropWholeIff(sent: seq<Piece>, out: seq<byte>, ahead: seq<Buf>, queue: seq<Buf>)
    requires Balanced(sent, out, ahead + queue) && |ahead| <= 1 && queue != [] && AllWhole(sent)
    ensures var n := |out| + |Flat(ahead)|;
            AllWhole(Discard(sent, n, n + |queue[0].rest|)) <==> ahead != [] || Boundary(sent, |out|)
  {
    hide Balanced, Boundary, Discard, AllWhole, Line;
    FirstQueued(sent, out, ahead, queue);
    var n := |out| + |Flat(ahead)|;
    DiscardWholeIff(sent, n, n + |queue[0].rest|);
    FirstEndsPiece(sent, out, ahead + queue);
    if ahead == [] {
      assert ahead + queue == queue;
    } else {
      FlatOne(ahead[0]);
      assert ahead == [ahead[0]] && (ahead + queue)[1..] == queue;
      FirstEndsPiece(sent, out + ahead[0].rest, queue);
    }
  }
}
