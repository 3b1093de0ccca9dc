/** The send side's framing: H4 type byte in front, then a 4-byte STP header, then a 2-byte trailer. */
module StpFramer {
  import opened Bytes
  import opened StpAutomaton
  import opened StpPhases
  import opened StpGrammar

  const ENOMEM := 12

  /** The bytes put on the wire for one H4 packet; its length is masked to 12 bits, never checked. */
  function Framed(h4: seq<byte>): (wire: seq<byte>)
    ensures |wire| == |h4| + HEADER_SIZE + TRAILER_SIZE
  {
    [STP_PREFIX, |h4| % 4096 / 256, |h4| % 256, 0] + h4 + [0, 0]
  }

  function FramedAll(packets: seq<seq<byte>>): seq<byte> {
    if packets == [] then [] else Framed(packets[0]) + FramedAll(packets[1..])
  }

  /** A socket buffer: its bytes and the room before and after them. */
  class Skb {
    var data: seq<byte>
    var headroom: nat
    var tailroom: nat
    const pktType: byte

    constructor (pktType: byte, data: seq<byte>, headroom: nat, tailroom: nat)
      ensures this.pktType == pktType && this.data == data
      ensures this.headroom == headroom && this.tailroom == tailroom
    {
      this.pktType := pktType;
      this.data, this.headroom, this.tailroom := data, headroom, tailroom;
    }

    method Push(front: seq<byte>)
      requires |front| <= headroom
      modifies this
      ensures data == front + old(data)
      ensures headroom == old(headroom) - |front| && tailroom == old(tailroom)
    {
      data, headroom := front + data, headroom - |front|;
    }

    method Put(back: seq<byte>)
      requires |back| <= tailroom
      modifies this
      ensures data == old(data) + back
      ensures headroom == old(headroom) && tailroom == old(tailroom) - |back|
    {
      data, tailroom := data + back, tailroom - |back|;
    }

    // Reallocation for more room on both sides; it can fail for lack of memory.
    method ExpandHead(front: nat, back: nat, memory: bool) returns (err: int)
      modifies this
      ensures data == old(data) && err == (if memory then 0 else -ENOMEM)
      ensures headroom == old(headroom) + (if memory then front else 0)
      ensures tailroom == old(tailroom) + (if memory then back else 0)
    {
      if !memory { return -ENOMEM; }
      headroom, tailroom := headroom + front, tailroom + back;
      err := 0;
    }
  }

  /**
    The framing half of sending.  There must be room for the type byte; there need not be room for the
    header and trailer.  When growing the buffer fails the packet is not framed, but the type byte stays.
   */
  method Encapsulate(skb: Skb, memory: bool) returns (err: int)
    requires skb.headroom >= 1
    modifies skb
    ensures err == 0 <==> memory || (old(skb.headroom) >= 5 && old(skb.tailroom) >= 2)
    ensures err == 0 ==> skb.data == Framed([skb.pktType] + old(skb.data))
    ensures err != 0 ==> err == -12 && skb.data == [skb.pktType] + old(skb.data)
  {
    skb.Push([skb.pktType]);
    if skb.headroom < HEADER_SIZE || skb.tailroom < TRAILER_SIZE {
      err := skb.ExpandHead(HEADER_SIZE, TRAILER_SIZE, memory);
      if err < 0 { return; }
    }
    var dlen := |skb.data|;
    var masked := dlen % 0x1000;
    assert masked % 0x100 == dlen % 0x100;
    skb.Push([STP_PREFIX, masked / 0x100, masked % 0x100, 0]);
    skb.Put([0, 0]);
    err := 0;
  }

  /** Byte for byte: prefix, big-endian length modulo 4096 under a zero nibble, no checksum, packet, zero trailer. */
  lemma {:induction false} FrameLayout(h4: seq<byte>)
    ensures var wire := Framed(h4);
            && |wire| == |h4| + 6
            && wire[0] == 0x80 && wire[1] < 16 && wire[1] as int * 256 + wire[2] == |h4| % 4096 && wire[3] == 0
            && wire[4..4 + |h4|] == h4 && wire[4 + |h4|..] == [0, 0]
  {
    FramedHeader(h4);
  }

  lemma {:induction false} FramedIsWireFrame(h4: seq<byte>)
    requires |h4| <= MAX_STP_DLEN
    ensures WireFrame(0, 0, h4, 0, 0).WellFormed() && Framed(h4) == WireFrame(0, 0, h4, 0, 0).Bytes()
  {
  }

  // A header that announces n modulo 4096 for more than 2048 bytes loses some of them to framing.
  lemma {:induction false} WrongLength(s: seq<byte>, n: nat)
    requires |s| == n + HEADER_SIZE + TRAILER_SIZE && n > MAX_STP_DLEN
    requires HeaderLength(s[1], s[2]) == n % 4096
    ensures |Deframe(s)| < n
  {
    var d, rest := n % 4096, s[HEADER_SIZE..];
    OutputBound(rest);
    if HeaderGood(s[0], s[1], s[2]) {
      OutputBound(rest[d + TRAILER_SIZE..]);
      assert Deframe(s) == rest[..d] + Deframe(rest[d + TRAILER_SIZE..]);
    }
  }

  lemma {:induction false} FramedHeader(h4: seq<byte>)
    ensures HeaderLength(Framed(h4)[1], Framed(h4)[2]) == |h4| % 4096
  {
    var n := |h4|;
    assert Framed(h4)[1] == n % 4096 / 256 && Framed(h4)[2] == n % 256;
    assert n % 4096 % 256 == n % 256;
  }

  // An oversize packet announces a wrong length or none that is accepted; some of it is taken for framing.
  lemma {:induction false} OversizeLosesBytes(h4: seq<byte>)
    requires |h4| > MAX_STP_DLEN
    ensures |Deframe(Framed(h4))| < |h4|
  {
    FramedHeader(h4);
    WrongLength(Framed(h4), |h4|);
  }

  /** De-framing undoes framing exactly for packets whose type byte and payload fit in 2048 bytes. */
  lemma {:induction false} RoundTripIff(p: Parser, h4: seq<byte>)
    requires p.AtHeader()
    ensures Output(p, Framed(h4)) == h4 <==> |h4| <= 2048
    ensures |h4| <= 2048 ==> Run(p, Framed(h4)).AtHeader()
  {
    if |h4| <= MAX_STP_DLEN {
      FramedIsWireFrame(h4);
      FrameRun(WireFrame(0, 0, h4, 0, 0));
      PhaseSimulates(p, Framed(h4));
      PhaseAtHeader(Run(p, Framed(h4)));
    } else {
      ReceiverDeframes(p, Framed(h4));
      OversizeLosesBytes(h4);
    }
  }

  lemma {:induction false} RoundTripAll(p: Parser, packets: seq<seq<byte>>)
    requires p.AtHeader() && forall h4 <- packets :: |h4| <= 2048
    ensures Output(p, FramedAll(packets)) == Concat(packets)
    ensures Run(p, FramedAll(packets)).AtHeader()
    decreases |packets|
  {
    if packets != [] {
      RoundTripIff(p, packets[0]);
      RunSplit(p, Framed(packets[0]), FramedAll(packets[1..]));
      RoundTripAll(Run(p, Framed(packets[0])), packets[1..]);
    }
  }
}
