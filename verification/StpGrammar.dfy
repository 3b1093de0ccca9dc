/**
  The STP stream as a grammar over whole frames, written without cursors, pads or phases:
  header (4), payload (length in the header), trailer (2), next header.  A bad header is dropped as four
  bytes with no trailer.
 */
module StpGrammar {
  import opened Bytes
  import opened StpAutomaton
  import opened StpPhases

  const HEADER_SIZE := 4
  const TRAILER_SIZE := 2

  function Deframe(s: seq<byte>): (h4: seq<byte>)
    decreases |s|
  {
    if |s| < 4 then []
    else
      var d, rest := s[1] as int % 16 * 256 + s[2], s[4..];
      if s[0] != 0x80 || d > 2048 then Deframe(rest)
      else if |rest| < d + 2 then (if |rest| < d then rest else rest[..d])
      else rest[..d] + Deframe(rest[d + 2..])
  }

  /** What four header bytes do to a receiver that expects a header. */
  lemma {:induction false} HeaderRun(h: seq<byte>)
    requires |h| == 4
    ensures PhaseOutput(Skip(0), h) == []
    ensures var d := h[1] as int % 16 * 256 + h[2];
            PhaseRun(Skip(0), h) ==
              if h[0] != 0x80 || d > 2048 then Skip(0) else if d == 0 then Skip(2) else Payload(d)
  {
    var v1 := PhaseStep(Skip(0), h[0]);
    var v2 := PhaseStep(v1, h[1]);
    var v3 := PhaseStep(v2, h[2]);
    var v4 := PhaseStep(v3, h[3]);
    assert h == [h[0]] + ([h[1]] + ([h[2]] + ([h[3]] + [])));
    QuietStep(v3, h[3], []);
    QuietStep(v2, h[2], [h[3]] + []);
    QuietStep(v1, h[1], [h[2]] + ([h[3]] + []));
    QuietStep(Skip(0), h[0], [h[1]] + ([h[2]] + ([h[3]] + [])));
  }

  lemma {:induction false} QuietStep(v: Phase, b: byte, s: seq<byte>)
    requires v.Legal() && !v.Payload?
    ensures PhaseOutput(v, [b] + s) == PhaseOutput(PhaseStep(v, b), s)
    ensures PhaseRun(v, [b] + s) == PhaseRun(PhaseStep(v, b), s)
  {
    assert ([b] + s)[1..] == s;
  }

  lemma {:induction false} TrailerRun(s: seq<byte>)
    ensures PhaseOutput(Skip(2), s) == if |s| < TRAILER_SIZE then [] else PhaseOutput(Skip(0), s[TRAILER_SIZE..])
    ensures |s| >= TRAILER_SIZE ==> PhaseRun(Skip(2), s) == PhaseRun(Skip(0), s[TRAILER_SIZE..])
  {
    if |s| < TRAILER_SIZE {
      SilentBefore(Skip(2), s);
    } else {
      assert s == [s[0]] + ([s[1]] + s[TRAILER_SIZE..]);
      QuietStep(Skip(2), s[0], [s[1]] + s[TRAILER_SIZE..]);
      QuietStep(Skip(1), s[1], s[TRAILER_SIZE..]);
    }
  }

  // The payload and what follows it, from the phase right after a good header.
  lemma {:induction false} PayloadThen(d: nat, s: seq<byte>)
    requires d <= MAX_STP_DLEN && d <= |s|
    ensures PhaseOutput(if d == 0 then Skip(2) else Payload(d), s) == s[..d] + PhaseOutput(Skip(2), s[d..])
  {
    if d > 0 {
      assert s == s[..d] + s[d..];
      PayloadPhase(d, s[..d]);
      PhaseSplit(Payload(d), s[..d], s[d..]);
    } else {
      assert s[..0] == [] && s[0..] == s;
      assert [] + PhaseOutput(Skip(2), s) == PhaseOutput(Skip(2), s);
    }
  }

  /** After a good header: the payload, cut short if the stream ends, and then two bytes that do not count. */
  lemma {:induction false} BodyRun(d: nat, s: seq<byte>)
    requires d <= MAX_STP_DLEN
    ensures PhaseOutput(if d == 0 then Skip(2) else Payload(d), s) ==
            if |s| < d + TRAILER_SIZE then (if |s| < d then s else s[..d])
            else s[..d] + PhaseOutput(Skip(0), s[d + TRAILER_SIZE..])
  {
    if |s| < d {
      PayloadPhase(d, s);
    } else {
      PayloadThen(d, s);
      TrailerRun(s[d..]);
      if |s| < d + TRAILER_SIZE {
        assert s[..d] + [] == s[..d];
      } else {
        assert s[d..][TRAILER_SIZE..] == s[d + TRAILER_SIZE..];
      }
    }
  }

  lemma {:induction false} PhaseDeframes(s: seq<byte>)
    ensures PhaseOutput(Skip(0), s) == Deframe(s)
    decreases |s|
  {
    hide PhaseOutput, PhaseRun, PhaseStep;
    if |s| < HEADER_SIZE {
      SilentBefore(Skip(0), s);
    } else {
      var rest := s[HEADER_SIZE..];
      assert s == s[..HEADER_SIZE] + rest;
      HeaderRun(s[..HEADER_SIZE]);
      PhaseSplit(Skip(0), s[..HEADER_SIZE], rest);
      if !HeaderGood(s[0], s[1], s[2]) {
        PhaseDeframes(rest);
      } else {
        var d := HeaderLength(s[1], s[2]);
        BodyRun(d, rest);
        if |rest| >= d + TRAILER_SIZE {
          PhaseDeframes(rest[d + TRAILER_SIZE..]);
        }
      }
    }
  }

  /** The receiver recognises exactly the grammar, on any stream and whatever is left in its pad. */
  lemma {:induction false} ReceiverDeframes(p: Parser, s: seq<byte>)
    requires p.AtHeader()
    ensures Output(p, s) == Deframe(s)
  {
    PhaseSimulates(p, s);
    PhaseDeframes(s);
  }

  // The grammar's view of a stream s that continues after what p has already read.
  function Continuation(p: Parser, s: seq<byte>): (h4: seq<byte>)
    requires p.Valid()
  {
    if p.dlen > 0 then
      if |s| < p.dlen then s
      else s[..p.dlen] + AfterTrailer(TRAILER_SIZE, s[p.dlen..])
    else if p.cursor == PAD_SIZE then AfterTrailer(TRAILER_SIZE, s)
    else if p.cursor < HEADER_START then AfterTrailer(HEADER_START - p.cursor, s)
    else Deframe(p.pad[HEADER_START..p.cursor] + s)
  }

  function AfterTrailer(owed: nat, s: seq<byte>): seq<byte> {
    if |s| < owed then [] else Deframe(s[owed..])
  }

  /**
    From any state: the rest of the payload, the rest of the trailer, or a header whose first bytes wait in
    the pad and count as if they were received again.
   */
  lemma {:induction false} ReceiverContinues(p: Parser, s: seq<byte>)
    requires p.Valid()
    ensures Output(p, s) == Continuation(p, s)
  {
    PhaseSimulates(p, s);
    if p.dlen > 0 {
      BodyRun(p.dlen, s);
      if p.dlen + TRAILER_SIZE <= |s| {
        assert s[p.dlen..][TRAILER_SIZE..] == s[p.dlen + TRAILER_SIZE..];
        PhaseDeframes(s[p.dlen + TRAILER_SIZE..]);
      } else if p.dlen <= |s| {
        assert s[..p.dlen] + [] == s[..p.dlen];
      }
    } else if HEADER_START <= p.cursor < PAD_SIZE {
      var h := p.pad[HEADER_START..p.cursor];
      HeaderInPad(p);
      PhaseSplit(Skip(0), h, s);
      PhaseDeframes(h + s);
    } else {
      TrailerContinues(if p.cursor == 1 then 1 else TRAILER_SIZE, s);
    }
  }

  lemma {:induction false} TrailerContinues(owed: nat, s: seq<byte>)
    requires 0 < owed <= TRAILER_SIZE
    ensures PhaseOutput(Skip(owed), s) == AfterTrailer(owed, s)
  {
    if |s| < owed {
      SilentBefore(Skip(owed), s);
    } else {
      PhaseDeframes(s[owed..]);
      if owed == 1 {
        assert s == [s[0]] + s[1..];
        QuietStep(Skip(1), s[0], s[1..]);
      } else {
        TrailerRun(s);
      }
    }
  }

  lemma {:induction false} SliceSnoc<T>(s: seq<T>, from: nat, to: nat)
    requires from <= to < |s|
    ensures s[from..to + 1] == s[from..to] + [s[to]]
  {
  }

  // The header bytes already in the pad have brought the receiver to the phase it is in.
  lemma {:induction false} HeaderInPad(p: Parser)
    requires p.Valid() && HEADER_START <= p.cursor < PAD_SIZE
    ensures PhaseRun(Skip(0), p.pad[HEADER_START..p.cursor]) == PhaseOf(p)
    ensures PhaseOutput(Skip(0), p.pad[HEADER_START..p.cursor]) == []
    decreases p.cursor
  {
    SilentBefore(Skip(0), p.pad[HEADER_START..p.cursor]);
    if p.cursor > HEADER_START {
      var last := p.pad[p.cursor - 1];
      var q := p.(cursor := p.cursor - 1);
      HeaderInPad(q);
      SliceSnoc(p.pad, HEADER_START, q.cursor);
      PhaseSplit(Skip(0), q.pad[HEADER_START..q.cursor], [last]);
      QuietStep(PhaseOf(q), last, []);
      assert [last] + [] == [last];
    }
  }

  // A frame as it may appear on the wire: any type nibble, checksum and trailer.
  datatype WireFrame = WireFrame(typeNibble: byte, checksum: byte, payload: seq<byte>, tail0: byte, tail1: byte) {
    predicate WellFormed() {
      typeNibble < 16 && |payload| <= 2048
    }

    function Bytes(): seq<byte>
      requires WellFormed()
    {
      [0x80, typeNibble * 16 + |payload| / 256, |payload| % 256, checksum] + payload + [tail0, tail1]
    }
  }

  function WireBytes(frames: seq<WireFrame>): seq<byte>
    requires forall f <- frames :: f.WellFormed()
  {
    if frames == [] then [] else frames[0].Bytes() + WireBytes(frames[1..])
  }

  function Payloads(frames: seq<WireFrame>): seq<byte> {
    if frames == [] then [] else frames[0].payload + Payloads(frames[1..])
  }

  lemma {:induction false} FrameRun(f: WireFrame)
    requires f.WellFormed()
    ensures PhaseOutput(Skip(0), f.Bytes()) == f.payload
    ensures PhaseRun(Skip(0), f.Bytes()) == Skip(0)
  {
    var d := |f.payload|;
    var h: seq<byte> := [STP_PREFIX, f.typeNibble * 16 + d / 256, d % 256, f.checksum];
    var body := f.payload + [f.tail0, f.tail1];
    assert f.Bytes() == h + body;
    assert HeaderLength(h[1], h[2]) == d;
    HeaderRun(h);
    PhaseSplit(Skip(0), h, body);
    var v := if d == 0 then Skip(2) else Payload(d);
    if d > 0 {
      PayloadPhase(d, f.payload);
      PhaseSplit(v, f.payload, [f.tail0, f.tail1]);
    } else {
      assert body == [f.tail0, f.tail1];
    }
    TrailerRun([f.tail0, f.tail1]);
  }

  lemma {:induction false} FramesRun(frames: seq<WireFrame>)
    requires forall f <- frames :: f.WellFormed()
    ensures PhaseOutput(Skip(0), WireBytes(frames)) == Payloads(frames)
    ensures PhaseRun(Skip(0), WireBytes(frames)) == Skip(0)
  {
    if frames != [] {
      FrameRun(frames[0]);
      PhaseSplit(Skip(0), frames[0].Bytes(), WireBytes(frames[1..]));
      FramesRun(frames[1..]);
    }
  }

  predicate BadHeader(h: seq<byte>) {
    |h| == 4 && (h[0] != 0x80 || h[1] as int % 16 * 256 + h[2] > 2048)
  }

  lemma {:induction false} JunkRun(junk: seq<seq<byte>>)
    requires forall h <- junk :: BadHeader(h)
    ensures PhaseOutput(Skip(0), Concat(junk)) == []
    ensures PhaseRun(Skip(0), Concat(junk)) == Skip(0)
  {
    if junk != [] {
      assert BadHeader(junk[0]);
      HeaderRun(junk[0]);
      PhaseSplit(Skip(0), junk[0], Concat(junk[1..]));
      JunkRun(junk[1..]);
    }
  }

  // Between frames the phase pins down the cursor too, except that a finished pad may still be waiting.
  lemma {:induction false} PhaseAtHeader(p: Parser)
    requires p.Valid()
    ensures PhaseOf(p) == Skip(0) <==> p.AtHeader()
  {
  }

  /**
    Any number of bad headers, then well-formed frames: exactly the payloads come out, the receiver stands
    before a header again, and after the junk nobody can tell it from a fresh one, whatever its pad holds.
   */
  lemma {:induction false} Resynchronises(p: Parser, junk: seq<seq<byte>>, frames: seq<WireFrame>, newborn: Parser)
    requires p.AtHeader() && newborn.AtHeader()
    requires forall h <- junk :: BadHeader(h)
    requires forall f <- frames :: f.WellFormed()
    ensures Output(p, Concat(junk) + WireBytes(frames)) == Payloads(frames)
    ensures Run(p, Concat(junk) + WireBytes(frames)).AtHeader()
    ensures Indistinguishable(Run(p, Concat(junk)), newborn)
  {
    var j, w := Concat(junk), WireBytes(frames);
    JunkRun(junk);
    FramesRun(frames);
    PhaseSplit(Skip(0), j, w);
    PhaseSimulates(p, j + w);
    PhaseSimulates(p, j);
    PhaseAtHeader(Run(p, j + w));
    IndistinguishableIffSamePhase(Run(p, j), newborn);
  }

  /**
    A header is dropped exactly when the receiver afterwards cannot be told from one that never saw it;
    an accepted header always shows.
   */
  lemma {:induction false} DroppedIffBad(p: Parser, h: seq<byte>)
    requires p.AtHeader() && |h| == 4
    ensures Output(p, h) == []
    ensures Indistinguishable(Run(p, h), p) <==> BadHeader(h)
  {
    PhaseSimulates(p, h);
    HeaderRun(h);
    IndistinguishableIffSamePhase(Run(p, h), p);
  }

  // Every header and every trailer costs its bytes.
  lemma {:induction false} OutputBound(s: seq<byte>)
    ensures |Deframe(s)| <= if |s| < HEADER_SIZE then 0 else |s| - HEADER_SIZE
    decreases |s|
  {
    if |s| >= HEADER_SIZE {
      var rest := s[HEADER_SIZE..];
      if !HeaderGood(s[0], s[1], s[2]) {
        OutputBound(rest);
      } else {
        var d := HeaderLength(s[1], s[2]);
        if |rest| >= d + TRAILER_SIZE {
          OutputBound(rest[d + TRAILER_SIZE..]);
        }
      }
    }
  }
}
