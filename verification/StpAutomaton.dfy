/**
  The STP de-framer one byte at a time.  A parser state is what the driver keeps between calls: the six
  pad bytes, the cursor into them, and the number of payload bytes still owed to H4.  The pad starts with
  the two trailer bytes of the previous frame; bytes 2..5 are the header (prefix, length high, length low,
  checksum).
 */
module StpAutomaton {
  import opened Bytes

  const PAD_SIZE := 6
  const HEADER_START := 2
  const STP_PREFIX := 0x80
  const MAX_STP_DLEN := 2048

  datatype Parser = Parser(pad: seq<byte>, cursor: nat, dlen: nat) {
    predicate Valid() {
      && |pad| == PAD_SIZE
      && cursor <= PAD_SIZE
      && dlen <= MAX_STP_DLEN
      && (dlen > 0 ==> cursor == PAD_SIZE)
    }

    // A parser that stands exactly before a header, as after opening or flushing the device.
    predicate AtHeader() {
      |pad| == PAD_SIZE && cursor == HEADER_START && dlen == 0
    }
  }

  /** The 12-bit length of a header: the top nibble of the high byte carries the frame type and is dropped. */
  function HeaderLength(high: byte, low: byte): (d: nat) {
    high % 16 * 256 + low
  }

  predicate HeaderGood(prefix: byte, high: byte, low: byte) {
    prefix == STP_PREFIX && HeaderLength(high, low) <= MAX_STP_DLEN
  }

  /** A finished pad is dropped before its next byte arrives. */
  function Rewind(p: Parser): (q: Parser)
    requires p.Valid()
    ensures q.Valid()
  {
    if p.dlen == 0 && p.cursor == PAD_SIZE then p.(cursor := 0) else p
  }

  /** Looks at the header as soon as the pad is full; a bad header sends the cursor back to the header. */
  function Inspect(p: Parser): (q: Parser)
    requires p.Valid()
    ensures q.Valid()
  {
    if p.dlen == 0 && p.cursor == PAD_SIZE then
      if HeaderGood(p.pad[2], p.pad[3], p.pad[4])
      then p.(dlen := HeaderLength(p.pad[3], p.pad[4]))
      else p.(cursor := HEADER_START)
    else p
  }

  function StepIn(p: Parser, b: byte): (q: Parser)
    requires p.Valid() && !(p.dlen == 0 && p.cursor == PAD_SIZE)
    ensures q.Valid()
  {
    if p.cursor < PAD_SIZE
    then Inspect(p.(pad := p.pad[p.cursor := b], cursor := p.cursor + 1))
    else p.(dlen := p.dlen - 1)
  }

  function Step(p: Parser, b: byte): (q: Parser)
    requires p.Valid()
    ensures q.Valid()
  {
    StepIn(Rewind(p), b)
  }

  function Emit(p: Parser, b: byte): (out: seq<byte>)
    requires p.Valid()
  {
    if p.dlen > 0 then [b] else []
  }

  function Run(p: Parser, s: seq<byte>): (q: Parser)
    requires p.Valid()
    ensures q.Valid()
    decreases |s|
  {
    if s == [] then p else Run(Step(p, s[0]), s[1..])
  }

  function Output(p: Parser, s: seq<byte>): (out: seq<byte>)
    requires p.Valid()
    decreases |s|
  {
    if s == [] then [] else Emit(p, s[0]) + Output(Step(p, s[0]), s[1..])
  }

  /** Receiving a then b is receiving a + b. */
  lemma {:induction false} RunSplit(p: Parser, a: seq<byte>, b: seq<byte>)
    requires p.Valid()
    ensures Run(p, a + b) == Run(Run(p, a), b)
    ensures Output(p, a + b) == Output(p, a) + Output(Run(p, a), b)
    decreases |a|
  {
    if a == [] {
      assert a + b == b;
    } else {
      assert (a + b)[1..] == a[1..] + b;
      RunSplit(Step(p, a[0]), a[1..], b);
    }
  }

  lemma {:induction false} RunSnoc(p: Parser, a: seq<byte>, b: byte)
    requires p.Valid()
    ensures Run(p, a + [b]) == Step(Run(p, a), b)
    ensures Output(p, a + [b]) == Output(p, a) + Emit(Run(p, a), b)
  {
    var q := Run(p, a);
    RunSplit(p, a, [b]);
    assert Run(q, [b]) == Run(Step(q, b), []);
    assert Output(q, [b]) == Emit(q, b) + Output(Step(q, b), []);
  }

  /** What a receiver has delivered and remembers after a list of receive calls. */
  function Feed(p: Parser, chunks: seq<seq<byte>>): (r: (Parser, seq<byte>))
    requires p.Valid()
    ensures r.0.Valid()
    decreases |chunks|
  {
    if chunks == [] then (p, [])
    else
      var (q, out) := Feed(Run(p, chunks[0]), chunks[1..]);
      (q, Output(p, chunks[0]) + out)
  }

  /** Only the bytes count, not where the UART cuts them, at every cursor position and every length. */
  lemma {:induction false} FeedIsRun(p: Parser, chunks: seq<seq<byte>>)
    requires p.Valid()
    ensures Feed(p, chunks) == (Run(p, Concat(chunks)), Output(p, Concat(chunks)))
    decreases |chunks|
  {
    if chunks != [] {
      RunSplit(p, chunks[0], Concat(chunks[1..]));
      FeedIsRun(Run(p, chunks[0]), chunks[1..]);
    }
  }

  lemma {:induction false} ChunkingInvariance(p: Parser, one: seq<seq<byte>>, other: seq<seq<byte>>)
    requires p.Valid() && Concat(one) == Concat(other)
    ensures Feed(p, one) == Feed(p, other)
  {
    FeedIsRun(p, one);
    FeedIsRun(p, other);
  }

  /** A block of payload no longer than what is owed goes through unchanged. */
  lemma {:induction false} RunPayload(p: Parser, s: seq<byte>)
    requires p.Valid() && |s| <= p.dlen
    ensures Run(p, s) == p.(dlen := p.dlen - |s|)
    ensures Output(p, s) == s
    decreases |s|
  {
    if s != [] {
      RunPayload(Step(p, s[0]), s[1..]);
    }
  }
}
