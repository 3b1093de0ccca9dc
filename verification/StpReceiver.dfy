/** The receive side of the driver: block-oriented splitting over a mutable pad, feeding the H4 layer. */
module StpReceiver {
  import opened Bytes
  import opened StpAutomaton

  /**
    The H4 reassembler.  It takes every byte it is handed; whether it then reports an error is left open:
    the verdict may depend on everything handed over before and on the chunk.  A chunk of no bytes is a
    no-op.  The chunks taken are remembered one by one.
   */
  class H4Sink {
    var taken: seq<byte>
    ghost var pieces: seq<seq<byte>>
    const verdict: (seq<byte>, seq<byte>) -> int

    constructor (verdict: (seq<byte>, seq<byte>) -> int)
      ensures taken == [] && pieces == [] && this.verdict == verdict
    {
      this.verdict := verdict;
      taken, pieces := [], [];
    }

    method RecvBuf(chunk: seq<byte>) returns (err: int)
      modifies this
      ensures taken == old(taken) + chunk
      ensures pieces == old(pieces) + if chunk == [] then [] else [chunk]
      ensures err == if chunk != [] && verdict(old(taken), chunk) < 0 then verdict(old(taken), chunk) else 0
    {
      err := 0;
      if chunk != [] {
        var v := verdict(taken, chunk);
        if v < 0 { err := v; }
        taken, pieces := taken + chunk, pieces + [chunk];
      }
    }

    /** What H4 says to the last of some pieces that follow the bytes before. */
    ghost function LastVerdict(before: seq<byte>, some: seq<seq<byte>>): int
      requires some != []
    {
      verdict(before + Concat(some[..|some| - 1]), some[|some| - 1])
    }

    /** H4 has no objection to any of some pieces that follow the bytes before. */
    ghost predicate Accepts(before: seq<byte>, some: seq<seq<byte>>) {
      some == [] || (Accepts(before, some[..|some| - 1]) && LastVerdict(before, some) >= 0)
    }
  }

  class Receiver {
    const h4: H4Sink
    const pad: array<byte>
    var cursor: nat
    var dlen: nat
    var byteRx: nat

    ghost predicate Valid()
      reads this, pad
    {
      pad.Length == PAD_SIZE && Parser(pad[..], cursor, dlen).Valid()
    }

    ghost function State(): (p: Parser)
      requires Valid()
      reads this, pad
      ensures p.Valid()
    {
      Parser(pad[..], cursor, dlen)
    }

    constructor (h4: H4Sink)
      ensures Valid() && State().AtHeader()
      ensures this.h4 == h4 && fresh(pad) && byteRx == 0
    {
      this.h4 := h4;
      pad := new byte[PAD_SIZE];
      cursor, dlen, byteRx := HEADER_START, 0, 0;
    }

    // The receive half of a flush: the parser stands before a header again, with the old pad left as it is.
    method Flush()
      requires Valid()
      modifies this`cursor, this`dlen
      ensures Valid() && State().AtHeader() && State().pad == old(State()).pad
    {
      cursor, dlen := HEADER_START, 0;
    }

    // Fills the pad as far as the data goes, and looks at the header once the pad is full.
    method Fill(data: seq<byte>) returns (left: seq<byte>, ghost framing: seq<byte>)
      requires Valid() && State() == Rewind(State())
      modifies this`cursor, this`dlen, pad
      ensures Valid() && data == framing + left
      ensures State() == Run(old(State()), framing) && Output(old(State()), framing) == []
      ensures framing == [] && left != [] ==> dlen > 0
    {
      ghost var p := State();
      framing := [];
      left := data;
      while cursor < PAD_SIZE && left != []
        invariant data == framing + left
        invariant Valid()
        invariant p.cursor < PAD_SIZE ==> dlen == 0
        invariant p.cursor == PAD_SIZE ==> framing == [] && dlen > 0
        invariant framing == [] ==> cursor == p.cursor
        invariant cursor < PAD_SIZE ==> State() == Run(p, framing)
        invariant cursor == PAD_SIZE ==> Inspect(State()) == Run(p, framing)
        invariant Output(p, framing) == []
        decreases |left|
      {
        FillOne(p, State(), framing, left[0]);
        framing := framing + [left[0]];
        pad[cursor] := left[0];
        cursor := cursor + 1;
        left := left[1..];
      }
      if dlen == 0 && cursor >= PAD_SIZE {
        dlen := HeaderLength(pad[3], pad[4]);
        if pad[2] != STP_PREFIX || dlen > MAX_STP_DLEN {
          cursor := HEADER_START;
          dlen := 0;
        }
      }
    }

    /**
      Splits one piece of H4 payload off the front of data.  A negative start stands for the null pointer:
      everything was STP framing.  Otherwise data[start..start + size] is the next piece, already deducted
      from the length that is still owed.
     */
    method Split(data: seq<byte>) returns (start: int, size: nat)
      requires Valid()
      modifies this`cursor, this`dlen, pad
      ensures Valid()
      ensures data == [] ==> start < 0 && State() == Rewind(old(State()))
      ensures data != [] && start < 0 ==> (
        && State() == Run(old(State()), data)
        && Output(old(State()), data) == [])
      ensures start >= 0 ==> (
        && 0 < start + size <= |data| && start < |data|
        && (start + size == |data| || State().dlen == 0)
        && State() == Run(old(State()), data[..start] + data[start..][..size])
        && Output(old(State()), data[..start] + data[start..][..size]) == data[start..][..size])
    {
      ghost var p := Rewind(State());
      if dlen == 0 && cursor >= PAD_SIZE {
        cursor := 0;
      }
      assert State() == p;

      ghost var framing;
      var left;
      left, framing := Fill(data);
      RunRewound(old(State()), data);

      if left == [] {
        assert data == framing;
        return -1, 0;
      }

      size := if |left| < dlen then |left| else dlen;
      TakePayload(p, State(), framing, left[..size]);
      RunRewound(old(State()), framing + left[..size]);
      dlen := dlen - size;
      start := |data| - |left|;
      assert data[..start] == framing && data[start..] == left;
    }

    static lemma {:induction false} FillOne(p: Parser, s: Parser, framing: seq<byte>, b: byte)
      requires p.Valid() && s.Valid() && s.cursor < PAD_SIZE && s == Run(p, framing)
      ensures Run(p, framing + [b]) == Inspect(s.(pad := s.pad[s.cursor := b], cursor := s.cursor + 1))
      ensures Output(p, framing + [b]) == Output(p, framing)
    {
      StoreOne(s, b);
      RunSnoc(p, framing, b);
    }

    static lemma {:induction false} StoreOne(s: Parser, b: byte)
      requires s.Valid() && s.cursor < PAD_SIZE
      ensures Step(s, b) == Inspect(s.(pad := s.pad[s.cursor := b], cursor := s.cursor + 1))
      ensures Emit(s, b) == []
    {
    }

    static lemma {:induction false} TakePayload(p: Parser, s: Parser, framing: seq<byte>, piece: seq<byte>)
      requires p.Valid() && s.Valid() && s == Run(p, framing) && |piece| <= s.dlen
      ensures Run(p, framing + piece) == s.(dlen := s.dlen - |piece|)
      ensures Output(p, framing + piece) == Output(p, framing) + piece
    {
      RunSplit(p, framing, piece);
      RunPayload(s, piece);
    }

    // Dropping a finished pad early makes no difference to what comes of the next bytes.
    static lemma {:induction false} RunRewound(p: Parser, data: seq<byte>)
      requires p.Valid()
      ensures data != [] ==> Run(Rewind(p), data) == Run(p, data) && Output(Rewind(p), data) == Output(p, data)
    {
      if data != [] {
        assert Step(Rewind(p), data[0]) == Step(p, data[0]) && Emit(Rewind(p), data[0]) == Emit(p, data[0]);
      }
    }

    // The pieces handed to H4 for the bytes used, when every piece so far has been accepted.
    ghost predicate Delivered(before: seq<byte>, p: Parser, used: seq<byte>, pieces: seq<seq<byte>>)
      requires p.Valid()
    {
      Concat(pieces) == Output(p, used) && h4.Accepts(before, pieces)
    }

    /**
      The pieces handed to H4 for the bytes used, when the last one has been refused: all others have been
      accepted, err is what H4 said, and the bytes used end where that piece ends.
     */
    ghost predicate Refused(before: seq<byte>, p: Parser, used: seq<byte>, pieces: seq<seq<byte>>, err: int)
      requires p.Valid()
    {
      && Concat(pieces) == Output(p, used) && pieces != []
      && h4.Accepts(before, pieces[..|pieces| - 1])
      && err == h4.LastVerdict(before, pieces) < 0
      && var last := pieces[|pieces| - 1];
         last != [] && |last| <= |used| && used[|used| - |last|..] == last
    }

    /**
      Receives one block.  It succeeds exactly if H4 accepts every piece, and then the parser has run over
      the whole block; otherwise H4's error is returned, the parser has run over exactly the bytes up to the
      end of the refused piece, and the rest of the block is lost.
     */
    method Recv(data: seq<byte>) returns (err: int, ghost used: seq<byte>, ghost pieces: seq<seq<byte>>)
      requires Valid() && |data| < 0x8000_0000
      modifies this`cursor, this`dlen, pad, h4
      ensures Valid() && used <= data
      ensures State() == Run(old(State()), used)
      ensures h4.taken == old(h4.taken) + Concat(pieces) && h4.pieces == old(h4.pieces) + pieces
      ensures err <= 0
      ensures err == 0 ==> used == data && Delivered(old(h4.taken), old(State()), used, pieces)
      ensures err < 0 ==> Refused(old(h4.taken), old(State()), used, pieces, err)
    {
      ghost var p, before := State(), h4.taken;
      var left := data;
      used, pieces := [], [];
      assert Concat(pieces) == [] && State() == Run(p, used) && Delivered(before, p, used, pieces);
      hide Run, Output, Concat, Delivered, Refused, Rewind, H4Sink.Accepts, H4Sink.LastVerdict;
      while left != []
        invariant Valid()
        invariant data == used + left
        invariant State() == Run(p, used) && Delivered(before, p, used, pieces)
        invariant h4.taken == before + Concat(pieces) && h4.pieces == old(h4.pieces) + pieces
        decreases |left|
      {
        var start, size := Split(left);
        if start < 0 {
          OnlyFraming(before, p, used, left, pieces);
          return 0, data, pieces;
        }
        ghost var framing := left[..start];
        Cut(used, left, start, size);
        left := left[start..];
        err := h4.RecvBuf(left[..size]);
        ghost var next := if size == 0 then [] else [left[..size]];
        OnePiece(before, p, used, framing, left[..size], pieces);
        Regroup(old(h4.pieces), pieces, next, []);
        used, pieces := used + (framing + left[..size]), pieces + next;
        if err < 0 {
          return err, used, pieces;
        }
        left := left[size..];
      }
      return 0, used, pieces;
    }

    static lemma {:induction false} Cut(used: seq<byte>, left: seq<byte>, start: nat, size: nat)
      requires start + size <= |left|
      ensures used + (left[..start] + left[start..][..size]) + left[start..][size..] == used + left
    {
    }

    // What one window of the split adds to the bytes used and to the pieces.
    lemma {:induction false} OnePiece(before: seq<byte>, p: Parser, used: seq<byte>, framing: seq<byte>,
                                      piece: seq<byte>, pieces: seq<seq<byte>>)
      requires p.Valid() && Delivered(before, p, used, pieces)
      requires Output(Run(p, used), framing + piece) == piece
      ensures Run(p, used + (framing + piece)) == Run(Run(p, used), framing + piece)
      ensures before + Concat(pieces) + piece == before + Concat(pieces + if piece == [] then [] else [piece])
      ensures piece == [] ==> Delivered(before, p, used + (framing + piece), pieces + [])
      ensures piece != [] ==> (
        var err := h4.verdict(before + Concat(pieces), piece);
        if err < 0 then Refused(before, p, used + (framing + piece), pieces + [piece], err)
        else Delivered(before, p, used + (framing + piece), pieces + [piece]))
    {
      RunSplit(p, used, framing + piece);
      assert pieces + [] == pieces;
      ConcatSnoc(pieces, piece);
      Regroup(before, Concat(pieces), piece, []);
      var more := pieces + [piece];
      assert more[..|more| - 1] == pieces;
      var all := used + (framing + piece);
      assert all[|all| - |piece|..] == piece;
    }

    lemma {:induction false} OnlyFraming(before: seq<byte>, p: Parser, used: seq<byte>, framing: seq<byte>,
                                         pieces: seq<seq<byte>>)
      requires p.Valid() && Delivered(before, p, used, pieces) && Output(Run(p, used), framing) == []
      ensures Run(p, used + framing) == Run(Run(p, used), framing)
      ensures Delivered(before, p, used + framing, pieces)
    {
      RunSplit(p, used, framing);
    }

    // The serdev callback: the block length is counted and returned, or H4's error is.
    method ReceiveBuf(data: seq<byte>) returns (r: int, ghost used: seq<byte>, ghost pieces: seq<seq<byte>>)
      requires Valid() && |data| < 0x8000_0000
      modifies this, pad, h4
      ensures Valid() && used <= data
      ensures State() == Run(old(State()), used)
      ensures h4.taken == old(h4.taken) + Concat(pieces) && h4.pieces == old(h4.pieces) + pieces
      ensures r == |data| || r < 0
      ensures r == |data| ==> (
        && byteRx == old(byteRx) + |data|
        && used == data && Delivered(old(h4.taken), old(State()), used, pieces))
      ensures r < 0 ==> byteRx == old(byteRx) && Refused(old(h4.taken), old(State()), used, pieces, r)
    {
      r, used, pieces := Recv(data);
      if r == 0 {
        byteRx := byteRx + |data|;
        r := |data|;
      }
    }
  }
}
