/** From the senders of one device to the H4 layer of a peer that runs the same de-framer. */
module EndToEnd {
  import opened Bytes
  import opened StpAutomaton
  import opened StpFramer
  import opened StpGrammar
  import opened TxLine
  import opened TxMachine
  import opened TxSafety

  // The pieces are whole frames, made from these H4 packets, each type byte and payload small enough for a receiver.
  ghost predicate Carry(ps: seq<Piece>, packets: seq<seq<byte>>) {
    && |ps| == |packets|
    && forall i :: 0 <= i < |ps| ==>
         ps[i].Whole() && ps[i].frame.rest == Framed(packets[i]) && |packets[i]| <= 2048
  }

  lemma {:induction false} LineCarries(ps: seq<Piece>, packets: seq<seq<byte>>)
    requires Carry(ps, packets)
    ensures Line(ps) == FramedAll(packets)
  {
    if ps != [] {
      assert AsBuf(ps[0]).rest == ps[0].frame.rest == Framed(packets[0]);
      LineCarries(ps[1..], packets[1..]);
    }
  }

  lemma {:induction false} CarriedWhole(ps: seq<Piece>, packets: seq<seq<byte>>, p: Parser)
    requires Carry(ps, packets) && p.AtHeader()
    ensures Output(p, Line(ps)) == Concat(packets) && Run(p, Line(ps)).AtHeader()
  {
    LineCarries(ps, packets);
    forall h4 <- packets ensures |h4| <= 2048 {
      var i :| 0 <= i < |packets| && packets[i] == h4;
      assert ps[i].frame.rest == Framed(packets[i]);
    }
    RoundTripAll(p, packets);
  }

  lemma {:induction false} OutputGrows(p: Parser, early: seq<byte>, late: seq<byte>)
    requires p.Valid() && early <= late
    ensures Output(p, early) <= Output(p, late)
  {
    assert late == early + late[|early|..];
    RunSplit(p, early, late[|early|..]);
  }

  /**
    A receiver before a header, from the start of these whole frames on, however the bytes have been cut into
    received chunks and however many are still under way: what its H4 layer has got is a prefix of their
    packets, it includes every packet whose frame has arrived in full, and with the last byte it is all of
    them, with the receiver before a header again.
   */
  lemma {:induction false} Received(ps: seq<Piece>, packets: seq<seq<byte>>, p: Parser, chunks: seq<seq<byte>>)
    requires Carry(ps, packets) && p.AtHeader() && Concat(chunks) <= Line(ps)
    ensures Feed(p, chunks).1 <= Concat(packets)
    ensures forall k :: 0 <= k <= |packets| && |Line(ps[..k])| <= |Concat(chunks)| ==>
              Concat(packets[..k]) <= Feed(p, chunks).1
    ensures Concat(chunks) == Line(ps) ==> Feed(p, chunks).1 == Concat(packets) && Feed(p, chunks).0.AtHeader()
  {
    var got := Concat(chunks);
    FeedIsRun(p, chunks);
    CarriedWhole(ps, packets, p);
    OutputGrows(p, got, Line(ps));
    forall k | 0 <= k <= |packets| && |Line(ps[..k])| <= |got|
      ensures Concat(packets[..k]) <= Output(p, got)
    {
      assert ps == ps[..k] + ps[k..];
      LineJoin(ps[..k], ps[k..]);
      CarriedWhole(ps[..k], packets[..k], p);
      OutputGrows(p, Line(ps[..k]), got);
    }
  }

  /** The frames sent were made from these packets, each small enough for a receiver. */
  ghost predicate Framing(offered: seq<Buf>, packets: seq<seq<byte>>) {
    && |offered| == |packets|
    && forall i :: 0 <= i < |offered| ==> offered[i].rest == Framed(packets[i]) && |packets[i]| <= 2048
  }

  /** The packets of the frames that no flush has dropped. */
  ghost function Survivors(ps: seq<Piece>, packets: seq<seq<byte>>): seq<seq<byte>>
    requires forall p <- ps :: p.id < |packets|
  {
    seq(|ps|, i requires 0 <= i < |ps| => assert ps[i] in ps; packets[ps[i].id])
  }

  // Whole pieces in order are of different frames.
  lemma {:induction false} WholeAscending(ps: seq<Piece>, id: nat, at: nat)
    requires AllWhole(ps) && InOrder(ps, id, at)
    ensures forall i :: 0 <= i < |ps| ==> id < ps[i].id || (id == ps[i].id && at == 0)
    ensures forall i, j :: 0 <= i < j < |ps| ==> ps[i].id < ps[j].id
  {
    if ps != [] {
      assert ps[0] in ps;
      WholeAscending(ps[1..], ps[0].id, ps[0].to);
    }
  }

  /**
    At any moment of any interleaving, with any flushes, as long as these have left no frame cut: what a peer
    has got that listens from the start is a prefix of the packets that no flush has dropped, in the order of
    sending; it includes every one of them whose frame has arrived in full; and once nothing waits or is
    under way it is all of them.  Without a flush that drops something they are all packets sent.
   */
  lemma {:induction false} Delivered(s: Tx, packets: seq<seq<byte>>, p: Parser, chunks: seq<seq<byte>>)
    requires Reachable(s) && AllWhole(s.log.sent) && Framing(s.log.offered, packets)
    requires p.AtHeader() && Concat(chunks) <= s.log.wire
    ensures forall p <- s.log.sent :: p.id < |packets|
    ensures forall i, j :: 0 <= i < j < |s.log.sent| ==> s.log.sent[i].id < s.log.sent[j].id
    ensures var survivors := Survivors(s.log.sent, packets);
            && Feed(p, chunks).1 <= Concat(survivors)
            && (forall k :: 0 <= k <= |survivors| && |Line(s.log.sent[..k])| <= |Concat(chunks)| ==>
                  Concat(survivors[..k]) <= Feed(p, chunks).1)
            && (Waiting(s) == [] && s.port == [] && Concat(chunks) == s.log.wire ==>
                  Feed(p, chunks).1 == Concat(survivors) && Feed(p, chunks).0.AtHeader())
            && (s.log.purged == [] && s.log.lost == 0 ==> survivors == packets)
  {
    OnTheLine(s);
    hide *;
    SurvivorsCarried(s.log, packets);
    Received(s.log.sent, Survivors(s.log.sent, packets), p, chunks);
  }

  lemma {:induction false} OnTheLine(s: Tx)
    requires Reachable(s)
    ensures Faithful(s.log) && s.log.wire <= Line(s.log.sent)
    ensures Waiting(s) == [] && s.port == [] ==> s.log.wire == Line(s.log.sent)
  {
    ReachableInv(s);
    WireIsConserved(s);
    assert s.log.wire <= s.log.wire + s.port + Flat(Waiting(s));
  }

  lemma {:induction false} SurvivorsCarried(log: Log, packets: seq<seq<byte>>)
    requires Faithful(log) && AllWhole(log.sent) && Framing(log.offered, packets)
    ensures forall p <- log.sent :: p.id < |packets|
    ensures forall i, j :: 0 <= i < j < |log.sent| ==> log.sent[i].id < log.sent[j].id
    ensures Carry(log.sent, Survivors(log.sent, packets))
    ensures log.purged == [] && log.lost == 0 ==> Survivors(log.sent, packets) == packets
  {
    var ps := log.sent;
    WholeAscending(ps, 0, 0);
    var survivors := Survivors(ps, packets);
    forall i | 0 <= i < |ps|
      ensures ps[i].Whole() && ps[i].frame.rest == Framed(survivors[i]) && |survivors[i]| <= 2048
    {
      assert ps[i] in ps;
    }
  }

  /** The same after a cut: for a peer that is before a header when the first of some whole frames begins. */
  lemma {:induction false} DeliveredAfter(s: Tx, gone: seq<Piece>, ps: seq<Piece>, later: seq<Piece>,
                                          packets: seq<seq<byte>>, p: Parser, chunks: seq<seq<byte>>)
    requires Reachable(s) && s.log.sent == gone + ps + later && Carry(ps, packets)
    requires p.AtHeader() && Line(gone) + Concat(chunks) <= s.log.wire && |Concat(chunks)| <= |Line(ps)|
    ensures Feed(p, chunks).1 <= Concat(packets)
    ensures forall k :: 0 <= k <= |packets| && |Line(ps[..k])| <= |Concat(chunks)| ==>
              Concat(packets[..k]) <= Feed(p, chunks).1
    ensures |Concat(chunks)| == |Line(ps)| ==> Feed(p, chunks).1 == Concat(packets) && Feed(p, chunks).0.AtHeader()
  {
    WireIsConserved(s);
    LineJoin(gone + ps, later);
    LineJoin(gone, ps);
    Middle(Line(gone), Line(ps), Line(later), s.log.wire, Concat(chunks));
    Received(ps, packets, p, chunks);
  }

  lemma {:induction false} Middle(a: seq<byte>, b: seq<byte>, c: seq<byte>, wire: seq<byte>, got: seq<byte>)
    requires a + got <= wire <= a + b + c && |got| <= |b|
    ensures got <= b
  {
    assert got == (a + got)[|a|..] == (a + b + c)[|a|..|a| + |got|] == b[..|got|];
  }

  /* ---- A flush can cut a frame ---- */

  // One sender, and nothing under way.
  ghost predicate AtRest(s: Tx) {
    && s.queue == [] && s.worker.Idle? && s.callers == [Resting] && s.flusher.Away? && s.port == []
  }

  // A frame is sent and written in full.
  lemma {:induction false} SendOne(acts: seq<Action>, frame: Buf) returns (more: seq<Action>)
    requires Runnable(Init(1), acts) && AtRest(Exec(Init(1), acts)) && frame.rest != []
    requires !Exec(Init(1), acts).bits.active
    ensures Runnable(Init(1), more)
    ensures var s, t := Exec(Init(1), acts), Exec(Init(1), more);
            AtRest(t.(port := [])) && !t.bits.active && t.port == frame.rest && t.log.wire == s.log.wire
  {
    hide Runnable, Exec;
    more := Send(acts, frame);
    more := DrainFrame(more, frame);
  }

  lemma {:induction false} DrainFrame(acts: seq<Action>, frame: Buf) returns (more: seq<Action>)
    requires Runnable(Init(1), acts)
    requires var s := Exec(Init(1), acts); AtRest(s.(queue := [])) && s.queue == [frame] && s.bits.pending
    ensures Runnable(Init(1), more)
    ensures var s, t := Exec(Init(1), acts), Exec(Init(1), more);
            AtRest(t.(port := [])) && !t.bits.active && t.port == frame.rest && t.log.wire == s.log.wire
  {
    hide Runnable, Exec;
    more := Then(Init(1), acts, Start);
    more := Then(Init(1), more, ClearWakeup);
    more := Then(Init(1), more, Dequeue);
    more := FinishFrame(more, frame);
  }

  lemma {:induction false} FinishFrame(acts: seq<Action>, frame: Buf) returns (more: seq<Action>)
    requires Runnable(Init(1), acts)
    requires var s := Exec(Init(1), acts); AtRest(s.(worker := Idle)) && s.worker == Writing(frame) && !s.bits.wakeup
    ensures Runnable(Init(1), more)
    ensures var s, t := Exec(Init(1), acts), Exec(Init(1), more);
            AtRest(t.(port := [])) && !t.bits.active && t.port == frame.rest && t.log.wire == s.log.wire
  {
    hide Runnable, Exec;
    more := Then(Init(1), acts, Write(|frame.rest|));
    assert frame.rest[..|frame.rest|] == frame.rest;
    more := Then(Init(1), more, Dequeue);
    more := Then(Init(1), more, TestWakeup);
    more := Then(Init(1), more, ClearActive);
  }

  /**
    The condition on cut frames is needed.  A packet of two bytes is written; when five bytes of its frame are
    on the line, a flush discards the rest; a packet of one byte follows.  The peer takes the first byte of
    the second frame for the missing one of the first packet, and never sees the second packet.
   */
  lemma {:induction false} FlushTears(first: Buf, second: Buf, a: byte, b: byte, c: byte, p: Parser)
    returns (acts: seq<Action>)
    requires first.rest == Framed([a, b]) && second.rest == Framed([c]) && p.AtHeader()
    ensures Runnable(Init(1), acts)
    ensures Exec(Init(1), acts).log.wire == Framed([a, b])[..5] + Framed([c])
    ensures Output(p, Framed([a, b])[..5] + Framed([c])) == [a, 0x80]
  {
    assert Runnable(Init(1), []) && Exec(Init(1), []) == Init(1);
    TornOutput(a, b, c, p);
    hide Runnable, Exec, Framed;
    assert Init(1).callers == [Resting];
    acts := SendOne([], first);
    acts := Then(Init(1), acts, Shift(5));
    acts := FlushOne(acts);
    acts := SendOne(acts, second);
    acts := Then(Init(1), acts, Shift(7));
  }

  lemma {:induction false} TornOutput(a: byte, b: byte, c: byte, p: Parser)
    requires p.AtHeader()
    ensures Output(p, Framed([a, b])[..5] + Framed([c])) == [a, 0x80]
    ensures |Framed([a, b])| == 8 && |Framed([c])| == 7
  {
    var s := Framed([a, b])[..5] + Framed([c]);
    assert s == [0x80, 0, 2, 0, a, 0x80, 0, 1, 0, c, 0, 0];
    ReceiverDeframes(p, s);
    assert Deframe([]) == [];
    assert s[HEADER_SIZE..][2 + TRAILER_SIZE..] == [0, c, 0, 0];
    assert Deframe([0, c, 0, 0]) == [] by {
      assert [0, c, 0, 0][HEADER_SIZE..] == [];
    }
  }
}
