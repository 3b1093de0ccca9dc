/**
  What a receiver's state means.  Most of the 6-byte pad is dead weight at any moment; what matters for the
  bytes still to come is a phase, and two receivers deliver the same bytes for every future stream exactly
  when their phases are equal.
 */
module StpPhases {
  import opened Bytes
  import opened StpAutomaton

  datatype Phase =
    | Skip(count: nat)      // drop count bytes, then expect a header
    | Prefixed              // a good prefix byte has been seen
    | High(nibble: nat)     // ... and the low nibble of the first length byte
    | Sized(len: nat)       // ... and a positive length; the checksum byte is still to come
    | Payload(left: nat)    // left bytes belong to H4
  {
    predicate Legal() {
      match this
      case Skip(n) => n <= 3
      case Prefixed => true
      case High(n) => n <= 8
      case Sized(d) => 0 < d <= MAX_STP_DLEN
      case Payload(d) => 0 < d <= MAX_STP_DLEN
    }
  }

  // A header of length 0 still has a trailer: after its low length byte, three bytes are meaningless.
  function AfterLength(d: nat): Phase {
    if d > MAX_STP_DLEN then Skip(1) else if d == 0 then Skip(3) else Sized(d)
  }

  function PhaseOf(p: Parser): (v: Phase)
    requires p.Valid()
    ensures v.Legal()
  {
    if p.dlen > 0 then Payload(p.dlen)
    else if p.cursor == 6 then Skip(2)
    else if p.cursor <= 2 then Skip(2 - p.cursor)
    else if p.pad[2] != STP_PREFIX then Skip(6 - p.cursor)
    else if p.cursor == 3 then Prefixed
    else if p.pad[3] % 16 > 8 then Skip(6 - p.cursor)
    else if p.cursor == 4 then High(p.pad[3] % 16)
    else AfterLength(HeaderLength(p.pad[3], p.pad[4]))
  }

  function PhaseStep(v: Phase, b: byte): (w: Phase)
    requires v.Legal()
    ensures w.Legal()
  {
    match v
    case Skip(n) => if n > 0 then Skip(n - 1) else if b == STP_PREFIX then Prefixed else Skip(3)
    case Prefixed => if b % 16 <= 8 then High(b % 16) else Skip(2)
    case High(n) => AfterLength(n * 256 + b)
    case Sized(d) => Payload(d)
    case Payload(d) => if d == 1 then Skip(2) else Payload(d - 1)
  }

  function PhaseEmit(v: Phase, b: byte): seq<byte> {
    if v.Payload? then [b] else []
  }

  function PhaseRun(v: Phase, s: seq<byte>): (w: Phase)
    requires v.Legal()
    ensures w.Legal()
    decreases |s|
  {
    if s == [] then v else PhaseRun(PhaseStep(v, s[0]), s[1..])
  }

  function PhaseOutput(v: Phase, s: seq<byte>): (out: seq<byte>)
    requires v.Legal()
    decreases |s|
  {
    if s == [] then [] else PhaseEmit(v, s[0]) + PhaseOutput(PhaseStep(v, s[0]), s[1..])
  }

  lemma {:induction false} StepSimulates(p: Parser, b: byte)
    requires p.Valid()
    ensures PhaseOf(Step(p, b)) == PhaseStep(PhaseOf(p), b)
    ensures Emit(p, b) == PhaseEmit(PhaseOf(p), b)
  {
  }

  /** The pad-and-cursor parser behaves as its phase does, on every stream. */
  lemma {:induction false} PhaseSimulates(p: Parser, s: seq<byte>)
    requires p.Valid()
    ensures PhaseOf(Run(p, s)) == PhaseRun(PhaseOf(p), s)
    ensures Output(p, s) == PhaseOutput(PhaseOf(p), s)
    decreases |s|
  {
    if s != [] {
      StepSimulates(p, s[0]);
      PhaseSimulates(Step(p, s[0]), s[1..]);
    }
  }

  lemma {:induction false} PhaseSplit(v: Phase, a: seq<byte>, b: seq<byte>)
    requires v.Legal()
    ensures PhaseRun(v, a + b) == PhaseRun(PhaseRun(v, a), b)
    ensures PhaseOutput(v, a + b) == PhaseOutput(v, a) + PhaseOutput(PhaseRun(v, a), b)
    decreases |a|
  {
    if a == [] {
      assert a + b == b;
    } else {
      assert (a + b)[1..] == a[1..] + b;
      PhaseSplit(PhaseStep(v, a[0]), a[1..], b);
    }
  }

  // How many bytes it takes before the first one can reach H4.
  function Delay(v: Phase): (n: nat)
    ensures n > 0
  {
    match v
    case Payload(_) => 1
    case Sized(_) => 2
    case High(_) => 3
    case Prefixed => 4
    case Skip(n) => 5 + n
  }

  lemma {:induction false} SilentBefore(v: Phase, s: seq<byte>)
    requires v.Legal() && |s| < Delay(v)
    ensures PhaseOutput(v, s) == []
    decreases |s|
  {
    if s != [] {
      SilentBefore(PhaseStep(v, s[0]), s[1..]);
    }
  }

  // The byte that brings v one step closer to delivering.
  function Best(v: Phase): byte {
    match v
    case Skip(n) => if n == 0 then STP_PREFIX else 0
    case High(n) => if n == 0 then 1 else 0
    case _ => 0
  }

  function Shortest(v: Phase): (s: seq<byte>)
    requires v.Legal()
    ensures |s| == Delay(v)
    decreases Delay(v)
  {
    if v.Payload? then [0] else [Best(v)] + Shortest(PhaseStep(v, Best(v)))
  }

  lemma {:induction false} ShortestDelivers(v: Phase)
    requires v.Legal()
    ensures |PhaseOutput(v, Shortest(v))| == 1
    decreases Delay(v)
  {
    if v.Payload? {
      assert PhaseOutput(v, [0]) == [0] + PhaseOutput(PhaseStep(v, 0), []);
    } else {
      ShortestDelivers(PhaseStep(v, Best(v)));
    }
  }

  lemma {:induction false} PayloadPhase(d: nat, s: seq<byte>)
    requires Payload(d).Legal() && |s| <= d
    ensures PhaseOutput(Payload(d), s) == s
    ensures PhaseRun(Payload(d), s) == if |s| == d then Skip(2) else Payload(d - |s|)
    decreases |s|
  {
    if s != [] && d > 1 {
      PayloadPhase(d - 1, s[1..]);
    } else if s != [] {
      assert s == [s[0]] + [];
      assert PhaseOutput(Payload(d), s) == [s[0]] + PhaseOutput(Skip(2), s[1..]);
    }
  }

  function Sooner(v: Phase, w: Phase): nat {
    if Delay(v) < Delay(w) then Delay(v) else Delay(w)
  }

  /** A stream that tells two different phases apart. */
  function Separator(v: Phase, w: Phase): (s: seq<byte>)
    requires v.Legal() && w.Legal() && v != w
    decreases Sooner(v, w)
  {
    if Delay(v) < Delay(w) then Shortest(v)
    else if Delay(w) < Delay(v) then Shortest(w)
    else match v
      case Payload(d) => Zeros(if d < w.left then d + 1 else w.left + 1)
      case Sized(_) => [0] + Separator(PhaseStep(v, 0), PhaseStep(w, 0))
      case High(n) =>
        var b := if n == 0 || w.nibble == 0 then 1 else 0;
        [b] + Separator(PhaseStep(v, b), PhaseStep(w, b))
      case _ => assert false; []
  }

  function Zeros(n: nat): (s: seq<byte>)
    ensures |s| == n
  {
    seq(n, _ => 0)
  }

  lemma {:induction false} ShorterPayload(d: nat, e: nat)
    requires Payload(d).Legal() && Payload(e).Legal() && d < e
    ensures PhaseOutput(Payload(d), Zeros(d + 1)) != PhaseOutput(Payload(e), Zeros(d + 1))
  {
    PayloadPhase(e, Zeros(d + 1));
    assert Zeros(d + 1) == Zeros(d) + [0];
    PayloadPhase(d, Zeros(d));
    PhaseSplit(Payload(d), Zeros(d), [0]);
    SilentBefore(Skip(2), [0]);
    assert |PhaseOutput(Payload(d), Zeros(d + 1))| == d;
  }

  lemma {:induction false} QuietByte(v: Phase, b: byte, s: seq<byte>)
    requires v.Legal() && !v.Payload?
    ensures PhaseOutput(v, [b] + s) == PhaseOutput(PhaseStep(v, b), s)
  {
    assert ([b] + s)[1..] == s;
  }

  lemma {:induction false} SeparatorSeparates(v: Phase, w: Phase)
    requires v.Legal() && w.Legal() && v != w
    ensures PhaseOutput(v, Separator(v, w)) != PhaseOutput(w, Separator(v, w))
    decreases Sooner(v, w)
  {
    if Delay(v) < Delay(w) {
      ShortestDelivers(v);
      SilentBefore(w, Shortest(v));
    } else if Delay(w) < Delay(v) {
      ShortestDelivers(w);
      SilentBefore(v, Shortest(w));
    } else if v.Payload? {
      if v.left < w.left { ShorterPayload(v.left, w.left); } else { ShorterPayload(w.left, v.left); }
    } else {
      var b: byte := if v.High? && (v.nibble == 0 || w.nibble == 0) then 1 else 0;
      var s := Separator(PhaseStep(v, b), PhaseStep(w, b));
      assert Separator(v, w) == [b] + s;
      QuietByte(v, b, s);
      QuietByte(w, b, s);
      SeparatorSeparates(PhaseStep(v, b), PhaseStep(w, b));
    }
  }

  ghost predicate Indistinguishable(p: Parser, q: Parser)
    requires p.Valid() && q.Valid()
  {
    forall s :: Output(p, s) == Output(q, s)
  }

  /** The phases are exactly the distinguishable states: no two can be merged, and nothing else matters. */
  lemma {:induction false} IndistinguishableIffSamePhase(p: Parser, q: Parser)
    requires p.Valid() && q.Valid()
    ensures Indistinguishable(p, q) <==> PhaseOf(p) == PhaseOf(q)
  {
    if PhaseOf(p) == PhaseOf(q) {
      forall s ensures Output(p, s) == Output(q, s) {
        PhaseSimulates(p, s);
        PhaseSimulates(q, s);
      }
    } else {
      var s := Separator(PhaseOf(p), PhaseOf(q));
      PhaseSimulates(p, s);
      PhaseSimulates(q, s);
      SeparatorSeparates(PhaseOf(p), PhaseOf(q));
      assert Output(p, s) != Output(q, s);
    }
  }

  // Replacing x by y as the next byte changes nothing, now or later.
  ghost predicate Interchangeable(p: Parser, x: byte, y: byte)
    requires p.Valid()
  {
    forall s :: Output(p, [x] + s) == Output(p, [y] + s)
  }

  // The reading of the next byte that each phase makes: its low nibble, its exact value, or nothing at all.
  predicate ReadsAlike(v: Phase, x: byte, y: byte) {
    match v
    case Skip(n) => n > 0 || (x == STP_PREFIX <==> y == STP_PREFIX)
    case Prefixed => x % 16 == y % 16 || (x % 16 > 8 && y % 16 > 8)
    case High(n) => x == y || (n == 8 && x > 0 && y > 0)
    case Sized(_) => true
    case Payload(_) => x == y
  }

  lemma {:induction false} OutputCons(p: Parser, x: byte, s: seq<byte>)
    requires p.Valid()
    ensures Output(p, [x] + s) == Emit(p, x) + Output(Step(p, x), s)
  {
    assert ([x] + s)[1..] == s;
  }

  /** Exactly which bits of the stream the receiver looks at, for every state it can be in. */
  lemma {:induction false} InterchangeableIffReadAlike(p: Parser, x: byte, y: byte)
    requires p.Valid()
    ensures Interchangeable(p, x, y) <==> ReadsAlike(PhaseOf(p), x, y)
  {
    StepSimulates(p, x);
    StepSimulates(p, y);
    if PhaseOf(p).Payload? {
      InterchangeableInPayload(p, x, y);
    } else {
      InterchangeableOutsidePayload(p, x, y);
      IndistinguishableIffSamePhase(Step(p, x), Step(p, y));
    }
  }

  lemma {:induction false} InterchangeableInPayload(p: Parser, x: byte, y: byte)
    requires p.Valid() && PhaseOf(p).Payload?
    ensures Interchangeable(p, x, y) <==> x == y
  {
    OutputCons(p, x, []);
    OutputCons(p, y, []);
    if Interchangeable(p, x, y) {
      assert Output(p, [x] + []) == Output(p, [y] + []);
      assert Output(p, [x] + []) == [x] && Output(p, [y] + []) == [y];
    }
  }

  lemma {:induction false} InterchangeableOutsidePayload(p: Parser, x: byte, y: byte)
    requires p.Valid() && !PhaseOf(p).Payload?
    ensures Interchangeable(p, x, y) <==> Indistinguishable(Step(p, x), Step(p, y))
  {
    forall s: seq<byte>
      ensures Output(p, [x] + s) == Output(Step(p, x), s)
      ensures Output(p, [y] + s) == Output(Step(p, y), s)
    {
      OutputCons(p, x, s);
      OutputCons(p, y, s);
    }
    if Interchangeable(p, x, y) {
      forall s: seq<byte> ensures Output(Step(p, x), s) == Output(Step(p, y), s) {
        assert Output(p, [x] + s) == Output(p, [y] + s);
      }
    }
  }

  // Two streams differ only in trailer bytes, checksum bytes and the top nibble of the high length byte,
  // as met by a receiver that starts in p.
  predicate DifferInDeadBits(p: Parser, s: seq<byte>, t: seq<byte>)
    requires p.Valid()
    decreases |s|
  {
    && |s| == |t|
    && (s != [] ==>
        && DeadAt(Rewind(p), s[0], t[0])
        && DifferInDeadBits(Step(p, s[0]), s[1..], t[1..]))
  }

  predicate DeadAt(p: Parser, x: byte, y: byte) {
    x == y || p.cursor in {0, 1, 5} || (p.cursor == 3 && x % 16 == y % 16)
  }

  /** Trailers, checksums and frame types never influence what H4 sees, nor where the receiver ends up. */
  lemma {:induction false} NonInterference(p: Parser, q: Parser, s: seq<byte>, t: seq<byte>)
    requires p.Valid() && q.Valid() && p.cursor == q.cursor && PhaseOf(p) == PhaseOf(q)
    requires DifferInDeadBits(p, s, t)
    ensures Output(p, s) == Output(q, t)
    ensures Run(p, s).cursor == Run(q, t).cursor && PhaseOf(Run(p, s)) == PhaseOf(Run(q, t))
    decreases |s|
  {
    if s != [] {
      StepSimulates(p, s[0]);
      StepSimulates(q, t[0]);
      SameHeaderVerdict(p, q, s[0], t[0]);
      NonInterference(Step(p, s[0]), Step(q, t[0]), s[1..], t[1..]);
    }
  }

  lemma {:induction false} SameHeaderVerdict(p: Parser, q: Parser, x: byte, y: byte)
    requires p.Valid() && q.Valid() && p.cursor == q.cursor && PhaseOf(p) == PhaseOf(q)
    requires DeadAt(Rewind(p), x, y)
    ensures Step(p, x).cursor == Step(q, y).cursor
    ensures Emit(p, x) == Emit(q, y)
    ensures PhaseStep(PhaseOf(p), x) == PhaseStep(PhaseOf(q), y)
  {
  }
}
