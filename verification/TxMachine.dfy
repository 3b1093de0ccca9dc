/**
  The transmit path as a machine of atomic steps.  Any number of callers (senders, and the serial core's
  write-wakeup callback) interleave with one worker, one flusher and the serial port, which buffers what it
  accepts and passes it on to the line.  Nothing runs the worker twice at once: scheduling it sets a pending
  flag, and a run clears the flag when it starts.
 */
module TxMachine {
  import opened Bytes
  import opened TxLine

  const COMMAND_PKT: byte := 1
  const ACLDATA_PKT: byte := 2
  const SCODATA_PKT: byte := 3

  datatype Stats = Stats(bytes: nat, cmd: nat, acl: nat, sco: nat) {
    function Count(kind: byte): Stats {
      if kind == COMMAND_PKT then this.(cmd := cmd + 1)
      else if kind == ACLDATA_PKT then this.(acl := acl + 1)
      else if kind == SCODATA_PKT then this.(sco := sco + 1)
      else this
    }

    function Of(kind: byte): nat
      requires COMMAND_PKT <= kind <= SCODATA_PKT
    {
      if kind == COMMAND_PKT then cmd else if kind == ACLDATA_PKT then acl else sco
    }
  }

  // The worker, named by what it does next.
  datatype Worker = Idle | Clearing | Dequeuing | Writing(buf: Buf) | Requeuing(buf: Buf) | Testing | Releasing

  // A caller in the wakeup routine; sending tells a sender (its frame is queued) from a bare wakeup.
  datatype Caller = Resting | Entered(sending: bool) | Flagging(sending: bool) | Scheduling(sending: bool)

  // The flusher: it empties the port, drops buffers one by one until the queue is empty, then waits for the
  // worker and cancels.
  datatype Flusher = Away | Purging | Cancelling

  /**
    What an observer remembers: every frame sent; the pieces of them that are out or still to go out; the bytes
    on the line, which nothing can call back; the buffers that a flush has dropped from the queue; and how many
    bytes it has dropped from the port.
   */
  datatype Log = Log(offered: seq<Buf>, sent: seq<Piece>, wire: seq<byte>, purged: seq<Buf>, lost: nat)

  datatype Bits = Bits(active: bool, wakeup: bool, pending: bool)

  /**
    More to remember.  Of the buffers in the queue: cut says the last drain ended in a partial write, orphaned
    says a flush has cancelled a pending run behind them, and no drain has begun since.  Cancelled says a
    flush has cancelled a pending run with a bit set, and no run has ended since.
   */
  datatype Notes = Notes(cut: bool, cancelled: bool, orphaned: bool)

  /** The shared state, the parties, the bytes in the port, and what the observer remembers. */
  datatype Tx = Tx(
    queue: seq<Buf>, bits: Bits, worker: Worker, callers: seq<Caller>, flusher: Flusher, port: seq<byte>,
    notes: Notes, stats: Stats, log: Log)

  function Init(callers: nat): Tx {
    Tx([], Bits(false, false, false), Idle, seq(callers, _ => Resting), Away, [],
       Notes(false, false, false), Stats(0, 0, 0, 0), Log([], [], [], [], 0))
  }

  datatype Action =
    | Enqueue(i: nat, frame: Buf) | Wakeup(i: nat) | TestAndSetActive(i: nat) | SetWakeup(i: nat) | Schedule(i: nat)
    | Start | ClearWakeup | Dequeue | Write(n: nat) | Requeue | TestWakeup | ClearActive
    | FlushBegin | PurgeOne | CancelWork
    | Shift(k: nat)

  predicate ByCaller(a: Action) {
    a.Enqueue? || a.Wakeup? || a.TestAndSetActive? || a.SetWakeup? || a.Schedule?
  }

  predicate ByFlusher(a: Action) {
    a.FlushBegin? || a.PurgeOne? || a.CancelWork?
  }

  predicate ByWorker(a: Action) {
    !ByCaller(a) && !ByFlusher(a) && !a.Shift?
  }

  predicate CallerMay(callers: seq<Caller>, a: Action)
    requires ByCaller(a)
  {
    && a.i < |callers|
    && match a
       case Enqueue(i, frame) => callers[i].Resting? && frame.rest != []
       case Wakeup(i) => callers[i].Resting?
       case TestAndSetActive(i) => callers[i].Entered?
       case SetWakeup(i) => callers[i].Flagging?
       case Schedule(i) => callers[i].Scheduling?
  }

  predicate WorkerMay(worker: Worker, pending: bool, a: Action)
    requires ByWorker(a)
  {
    match a
    case Start => worker.Idle? && pending
    case ClearWakeup => worker.Clearing?
    case Dequeue => worker.Dequeuing?
    case Write(n) => worker.Writing? && n <= |worker.buf.rest|
    case Requeue => worker.Requeuing?
    case TestWakeup => worker.Testing?
    case ClearActive => worker.Releasing?
  }

  predicate FlusherMay(flusher: Flusher, worker: Worker, a: Action)
    requires ByFlusher(a)
  {
    match a
    case FlushBegin => flusher.Away?
    case PurgeOne => flusher.Purging?
    case CancelWork => flusher.Cancelling? && worker.Idle?
  }

  predicate Enabled(s: Tx, a: Action) {
    if ByCaller(a) then CallerMay(s.callers, a)
    else if ByFlusher(a) then FlusherMay(s.flusher, s.worker, a)
    else if a.Shift? then 0 < a.k <= |s.port|
    else WorkerMay(s.worker, s.bits.pending, a)
  }

  function Apply(s: Tx, a: Action): Tx
    requires Enabled(s, a)
  {
    if ByCaller(a) then ApplyCaller(s, a)
    else if ByFlusher(a) then ApplyFlusher(s, a)
    else if a.Shift? then s.(port := s.port[a.k..], log := s.log.(wire := s.log.wire + s.port[..a.k]))
    else ApplyWorker(s, a)
  }

  function ApplyCaller(s: Tx, a: Action): Tx
    requires ByCaller(a) && CallerMay(s.callers, a)
  {
    match a
    case Enqueue(i, frame) =>
      s.(queue := s.queue + [frame], log := Offered(s.log, frame), callers := s.callers[i := Entered(true)])
    case Wakeup(i) => s.(callers := s.callers[i := Entered(false)])
    case TestAndSetActive(i) =>
      var sending := s.callers[i].sending;
      s.(bits := s.bits.(active := true),
         callers := s.callers[i := if s.bits.active then Flagging(sending) else Scheduling(sending)])
    case SetWakeup(i) =>
      s.(bits := s.bits.(wakeup := true), callers := s.callers[i := Scheduling(s.callers[i].sending)])
    case Schedule(i) => s.(bits := s.bits.(pending := true), callers := s.callers[i := Resting])
  }

  function ApplyWorker(s: Tx, a: Action): Tx
    requires ByWorker(a) && WorkerMay(s.worker, s.bits.pending, a)
  {
    match a
    case Start => s.(bits := s.bits.(pending := false), worker := Clearing)
    case ClearWakeup =>
      s.(bits := s.bits.(wakeup := false), notes := s.notes.(cut := false, orphaned := false), worker := Dequeuing)
    case Dequeue =>
      if s.queue == [] then s.(worker := Testing)
      else s.(queue := s.queue[1..], worker := Writing(s.queue[0]))
    case Write(n) => ApplyWrite(s, n)
    case Requeue => s.(queue := [s.worker.buf] + s.queue, notes := s.notes.(cut := true), worker := Testing)
    case TestWakeup => s.(worker := if s.bits.wakeup then Clearing else Releasing)
    case ClearActive =>
      s.(bits := s.bits.(active := false), notes := s.notes.(cancelled := false), worker := Idle)
  }

  function ApplyFlusher(s: Tx, a: Action): Tx
    requires ByFlusher(a) && FlusherMay(s.flusher, s.worker, a)
  {
    match a
    case FlushBegin => s.(flusher := Purging, port := [], log := PortEmptied(s.log, |s.port|))
    case PurgeOne =>
      if s.queue == [] then s.(flusher := Cancelling)
      else s.(queue := s.queue[1..], log := Purged(s.log, |s.port| + |Flat(InHand(s))|, s.queue[0]),
              notes := if |s.queue| == 1 then s.notes.(cut := false, orphaned := false) else s.notes)
    case CancelWork =>
      s.(flusher := Away, bits := s.bits.(pending := false),
         notes := s.notes.(
           cancelled := s.notes.cancelled || (s.bits.pending && (s.bits.active || s.bits.wakeup)),
           orphaned := s.notes.orphaned || (s.bits.pending && s.queue != [])))
  }

  function Offered(log: Log, frame: Buf): Log
    requires frame.rest != []
  {
    log.(offered := log.offered + [frame], sent := log.sent + [WholePiece(|log.offered|, frame)])
  }

  // The log once the port has lost the last n bytes it accepted.
  function PortEmptied(log: Log, n: nat): Log {
    log.(sent := Discard(log.sent, |log.wire|, |log.wire| + n), lost := log.lost + n)
  }

  // The log once the first queued buffer is gone, with ahead bytes before it in the port and in hand.
  function Purged(log: Log, ahead: nat, buf: Buf): Log {
    var n := |log.wire| + ahead;
    log.(sent := Discard(log.sent, n, n + |buf.rest|), purged := log.purged + [buf])
  }

  // Only the worker touches the counters, so writing, pulling and counting are one step.
  function ApplyWrite(s: Tx, n: nat): Tx
    requires s.worker.Writing? && n <= |s.worker.buf.rest|
  {
    var buf := s.worker.buf;
    var stats, port := s.stats.(bytes := s.stats.bytes + n), s.port + buf.rest[..n];
    if n < |buf.rest| then
      s.(stats := stats, port := port, worker := Requeuing(Buf(buf.kind, buf.rest[n..])))
    else
      s.(stats := stats.Count(buf.kind), port := port, worker := Dequeuing)
  }

  predicate Runnable(s: Tx, acts: seq<Action>)
    decreases |acts|
  {
    acts == [] || (Enabled(s, acts[0]) && Runnable(Apply(s, acts[0]), acts[1..]))
  }

  function Exec(s: Tx, acts: seq<Action>): Tx
    requires Runnable(s, acts)
    decreases |acts|
  {
    if acts == [] then s else Exec(Apply(s, acts[0]), acts[1..])
  }

  lemma {:induction false} ExecSnoc(s: Tx, acts: seq<Action>, a: Action)
    requires Runnable(s, acts) && Enabled(Exec(s, acts), a)
    ensures Runnable(s, acts + [a]) && Exec(s, acts + [a]) == Apply(Exec(s, acts), a)
    decreases |acts|
  {
    if acts == [] {
      assert Runnable(Apply(s, a), []);
    } else {
      assert (acts + [a])[1..] == acts[1..] + [a];
      ExecSnoc(Apply(s, acts[0]), acts[1..], a);
    }
  }

  /* ---- What is still to go out ---- */

  function InHand(s: Tx): seq<Buf> {
    if s.worker.Writing? || s.worker.Requeuing? then [s.worker.buf] else []
  }

  function Waiting(s: Tx): seq<Buf> {
    InHand(s) + s.queue
  }

  // What the port has accepted and no flush has discarded.
  function Accepted(s: Tx): seq<byte> {
    s.log.wire + s.port
  }

  /* ---- Invariants ---- */

  /** What is on the line, in the port, in hand and queued are the pieces to be sent, in this order. */
  ghost predicate Conserved(s: Tx) {
    Balanced(s.log.sent, Accepted(s), Waiting(s))
  }

  function WholePieces(offered: seq<Buf>): seq<Piece>
    requires forall frame <- offered :: frame.rest != []
  {
    seq(|offered|, i requires 0 <= i < |offered| => WholePiece(i, offered[i]))
  }

  /** The pieces are those of the frames sent, in order, no byte twice; all of them, if no flush dropped any. */
  ghost predicate Faithful(log: Log) {
    && (forall frame <- log.offered :: frame.rest != [])
    && Genuine(log.sent, log.offered)
    && InOrder(log.sent, 0, 0)
    && (log.purged == [] && log.lost == 0 ==> log.sent == WholePieces(log.offered))
  }

  /** Of the frames of each kind all have been counted but those waiting and those purged. */
  ghost predicate Tallied(stats: Stats, waiting: seq<Buf>, log: Log) {
    forall kind: byte :: COMMAND_PKT <= kind <= SCODATA_PKT ==>
      stats.Of(kind) + CountKind(waiting, kind) + CountKind(log.purged, kind) == CountKind(log.offered, kind)
  }

  ghost predicate Counted(s: Tx) {
    && s.stats.bytes == |Accepted(s)| + s.log.lost
    && s.stats.bytes + |Flat(Waiting(s))| + |Flat(s.log.purged)| == |Flat(s.log.offered)|
    && Tallied(s.stats, Waiting(s), s.log)
  }

  ghost predicate SenderInside(s: Tx) {
    exists i :: 0 <= i < |s.callers| && !s.callers[i].Resting? && s.callers[i].sending
  }

  ghost predicate CallerAt(s: Tx, flagging: bool) {
    exists i :: 0 <= i < |s.callers| && (s.callers[i].Scheduling? || (flagging && s.callers[i].Flagging?))
  }

  /** Once the worker has stopped looking at the queue, whatever is in it has somebody to look after it. */
  ghost predicate Attended(s: Tx) {
    (s.worker.Testing? || s.worker.Releasing? || s.worker.Idle?) && s.queue != [] && !s.notes.cut ==>
      s.bits.pending || SenderInside(s) || s.notes.orphaned
  }

  /** A set WAKEUP bit stands for a drain that is still to come, a set ACTIVE bit for a run. */
  ghost predicate BitsMean(s: Tx) {
    && (s.bits.wakeup ==>
          s.bits.pending || CallerAt(s, false) || s.worker.Clearing? || (s.worker.Idle? && s.notes.cancelled))
    && (s.bits.active ==> s.bits.pending || CallerAt(s, true) || !s.worker.Idle? || s.notes.cancelled)
  }

  /** No note outlives what it is about. */
  predicate NotesMean(s: Tx) {
    && (s.notes.cut ==>
          s.queue != [] && (s.worker.Testing? || s.worker.Releasing? || s.worker.Idle? || s.worker.Clearing?))
    && (s.notes.orphaned ==> s.queue != [] && (s.worker.Idle? || s.worker.Clearing?))
    && (s.notes.cancelled && s.worker.Idle? ==> s.bits.active || s.bits.wakeup)
  }

  ghost predicate Inv(s: Tx) {
    Conserved(s) && Faithful(s.log) && Counted(s) && Attended(s) && BitsMean(s) && NotesMean(s)
  }
}
