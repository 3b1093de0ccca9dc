/** Every reachable state of the transmit machine keeps its invariants, and what follows from them. */
module TxSafety {
  import opened Bytes
  import opened TxLine
  import opened TxMachine

  /* ---- One step at a time ---- */

  // The steps that change what is waiting or what is out.
  predicate Moves(s: Tx, a: Action) {
    a.Enqueue? || a.Write? || a.FlushBegin? || (a.PurgeOne? && s.queue != [])
  }

  // Every other step passes bytes on to the line or a buffer between queue and worker, or touches bits and parties.
  lemma {:induction false} WorkerKeeps(s: Tx, a: Action)
    requires Enabled(s, a) && ByWorker(a) && !a.Write?
    ensures ApplyWorker(s, a).log == s.log && ApplyWorker(s, a).stats == s.stats && ApplyWorker(s, a).port == s.port
    ensures Waiting(ApplyWorker(s, a)) == Waiting(s)
  {
    var t := ApplyWorker(s, a);
    if a.Dequeue? {
      assert s.queue != [] ==> s.queue == [s.queue[0]] + s.queue[1..];
      assert InHand(t) + t.queue == InHand(s) + s.queue;
    } else if a.Requeue? {
      assert InHand(t) + t.queue == InHand(s) + s.queue;
    } else {
      assert InHand(t) == InHand(s) && t.queue == s.queue;
    }
  }

  lemma {:induction false} OthersKeep(s: Tx, a: Action)
    requires Enabled(s, a) && !Moves(s, a)
    ensures Apply(s, a).log == s.log.(wire := Apply(s, a).log.wire) && Accepted(Apply(s, a)) == Accepted(s)
    ensures Apply(s, a).stats == s.stats && Waiting(Apply(s, a)) == Waiting(s)
  {
    if ByWorker(a) {
      WorkerKeeps(s, a);
    } else {
      var t := Apply(s, a);
      assert t.worker == s.worker && t.queue == s.queue;
      if a.Shift? {
        assert s.port == s.port[..a.k] + s.port[a.k..];
        assert Accepted(t) == Accepted(s);
      }
    }
  }

  lemma {:induction false} EnqueueConserves(s: Tx, i: nat, frame: Buf)
    requires Conserved(s) && CallerMay(s.callers, Enqueue(i, frame))
    ensures Conserved(ApplyCaller(s, Enqueue(i, frame)))
  {
    var t, p := ApplyCaller(s, Enqueue(i, frame)), WholePiece(|s.log.offered|, frame);
    assert AsBuf(p) == frame && Waiting(t) == Waiting(s) + [frame];
    hide Balanced;
    SendMore(s.log.sent, Accepted(s), Waiting(s), p);
  }

  lemma {:induction false} WriteConserves(s: Tx, n: nat)
    requires Conserved(s) && Enabled(s, Write(n))
    ensures Conserved(ApplyWrite(s, n))
  {
    var t, buf := ApplyWrite(s, n), s.worker.buf;
    assert Waiting(s)[0] == buf && Waiting(s)[1..] == s.queue;
    assert Waiting(t) == (if n == |buf.rest| then [] else [Buf(buf.kind, buf.rest[n..])]) + s.queue;
    assert Accepted(t) == Accepted(s) + buf.rest[..n];
    hide Balanced;
    WriteMore(s.log.sent, Accepted(s), Waiting(s), n);
  }

  /** Emptying the port keeps the account of what is on the line, in hand and queued. */
  lemma {:induction false} PortConserves(s: Tx)
    requires Conserved(s) && s.flusher.Away?
    ensures Conserved(ApplyFlusher(s, FlushBegin))
  {
    var t := ApplyFlusher(s, FlushBegin);
    assert Waiting(t) == Waiting(s) && Accepted(t) == Accepted(s)[..|s.log.wire|];
    hide Balanced;
    TakeBack(s.log.sent, Accepted(s), Waiting(s), |s.log.wire|);
  }

  /** Dropping a queued buffer keeps the account of the rest, whether or not another one is in the worker's hands. */
  lemma {:induction false} PurgeConserves(s: Tx)
    requires Conserved(s) && s.flusher.Purging? && s.queue != []
    ensures Conserved(ApplyFlusher(s, PurgeOne))
  {
    hide Balanced, Discard, Flat;
    var t := ApplyFlusher(s, PurgeOne);
    assert Waiting(t) == InHand(s) + s.queue[1..] && Accepted(t) == Accepted(s);
    TakeOut(s.log.sent, Accepted(s), InHand(s), s.queue);
  }

  lemma {:induction false} ConservedStep(s: Tx, a: Action)
    requires Conserved(s) && Enabled(s, a)
    ensures Conserved(Apply(s, a))
  {
    if !Moves(s, a) {
      OthersKeep(s, a);
    } else {
      hide ApplyCaller, ApplyFlusher, ApplyWrite, Conserved;
      match a
      case Enqueue(i, frame) => EnqueueConserves(s, i, frame);
      case Write(n) => WriteConserves(s, n);
      case FlushBegin => PortConserves(s);
      case PurgeOne => PurgeConserves(s);
    }
  }

  lemma {:induction false} RangeFaithful(log: Log, n: nat, m: nat)
    requires Faithful(log) && n < m <= |Line(log.sent)|
    ensures Genuine(Discard(log.sent, n, m), log.offered) && InOrder(Discard(log.sent, n, m), 0, 0)
  {
    DiscardGenuine(log.sent, n, m, log.offered);
    DiscardInOrder(log.sent, n, m, 0, 0);
  }

  lemma {:induction false} FaithfulPort(log: Log, n: nat)
    requires Faithful(log) && |log.wire| + n <= |Line(log.sent)|
    ensures Faithful(PortEmptied(log, n))
  {
    if n > 0 {
      RangeFaithful(log, |log.wire|, |log.wire| + n);
    }
  }

  lemma {:induction false} FaithfulPurged(log: Log, ahead: nat, buf: Buf)
    requires Faithful(log) && buf.rest != [] && |log.wire| + ahead + |buf.rest| <= |Line(log.sent)|
    ensures Faithful(Purged(log, ahead, buf))
  {
    hide Discard, Line;
    RangeFaithful(log, |log.wire| + ahead, |log.wire| + ahead + |buf.rest|);
  }

  lemma {:induction false} FaithfulPurge(s: Tx)
    requires Conserved(s) && Faithful(s.log) && s.queue != []
    ensures Faithful(Purged(s.log, |s.port| + |Flat(InHand(s))|, s.queue[0]))
  {
    hide Balanced, Faithful, Purged;
    FirstQueued(s.log.sent, Accepted(s), InHand(s), s.queue);
    FaithfulPurged(s.log, |s.port| + |Flat(InHand(s))|, s.queue[0]);
  }

  lemma {:induction false} FaithfulSnoc(log: Log, frame: Buf)
    requires Faithful(log) && frame.rest != []
    ensures Faithful(Offered(log, frame))
  {
    var t, p := Offered(log, frame), WholePiece(|log.offered|, frame);
    InOrderSnoc(log.sent, p, 0, 0);
    if t.purged == [] && t.lost == 0 {
      assert t.sent == WholePieces(t.offered);
    }
  }

  /** No step invents, reorders or repeats a byte of a frame. */
  lemma {:induction false} FaithfulStep(s: Tx, a: Action)
    requires Conserved(s) && Faithful(s.log) && Enabled(s, a)
    ensures Faithful(Apply(s, a).log)
  {
    hide Apply, Enabled, ApplyWrite, Discard, Left;
    if !Moves(s, a) {
      OthersKeep(s, a);
    } else {
      LogStep(s, a);
      hide Faithful;
      match a
      case Enqueue(i, frame) => FaithfulSnoc(s.log, frame);
      case Write(n) =>
      case FlushBegin => FaithfulPort(s.log, |s.port|);
      case PurgeOne => FaithfulPurge(s);
    }
  }

  lemma {:induction false} LogStep(s: Tx, a: Action)
    requires Enabled(s, a) && Moves(s, a)
    ensures a.Enqueue? ==> a.frame.rest != [] && Apply(s, a).log == Offered(s.log, a.frame)
    ensures a.Write? ==> Apply(s, a).log == s.log
    ensures a.FlushBegin? ==> Apply(s, a).log == PortEmptied(s.log, |s.port|)
    ensures a.PurgeOne? ==> Apply(s, a).log == Purged(s.log, |s.port| + |Flat(InHand(s))|, s.queue[0])
  {
    hide Discard, Flat;
  }

  lemma {:induction false} CountFirst(buf: Buf, bufs: seq<Buf>, kind: byte)
    ensures CountKind([buf] + bufs, kind) == (if buf.kind == kind then 1 else 0) + CountKind(bufs, kind)
    ensures |Flat([buf] + bufs)| == |buf.rest| + |Flat(bufs)|
  {
    assert ([buf] + bufs)[0] == buf && ([buf] + bufs)[1..] == bufs;
  }

  lemma {:induction false} CountedWrite(s: Tx, n: nat)
    requires Counted(s) && Enabled(s, Write(n))
    ensures Counted(ApplyWrite(s, n))
  {
    var t, buf := ApplyWrite(s, n), s.worker.buf;
    var left := Buf(buf.kind, buf.rest[n..]);
    assert Waiting(s) == [buf] + s.queue;
    hide CountKind, Flat;
    assert Waiting(t) == if n < |buf.rest| then [left] + s.queue else s.queue;
    forall kind ensures CountKind(Waiting(s), kind) ==
                        (if n < |buf.rest| || buf.kind != kind then 0 else 1) + CountKind(Waiting(t), kind) {
      CountFirst(buf, s.queue, kind);
      CountFirst(left, s.queue, kind);
    }
    CountFirst(buf, s.queue, 0);
    CountFirst(left, s.queue, 0);
  }

  lemma {:induction false} CountedEnqueue(s: Tx, i: nat, frame: Buf)
    requires Counted(s) && CallerMay(s.callers, Enqueue(i, frame))
    ensures Counted(ApplyCaller(s, Enqueue(i, frame)))
  {
    var t := ApplyCaller(s, Enqueue(i, frame));
    assert Waiting(t) == Waiting(s) + [frame];
    FlatJoin(Waiting(s), [frame]);
    FlatJoin(s.log.offered, [frame]);
    forall kind ensures CountKind(Waiting(t), kind) == CountKind(Waiting(s), kind) + CountKind([frame], kind)
                     && CountKind(t.log.offered, kind) == CountKind(s.log.offered, kind) + CountKind([frame], kind) {
      CountJoin(Waiting(s), [frame], kind);
      CountJoin(s.log.offered, [frame], kind);
    }
  }

  lemma {:induction false} CountedPurge(s: Tx)
    requires Counted(s) && s.flusher.Purging? && s.queue != []
    ensures Counted(ApplyFlusher(s, PurgeOne))
  {
    var t, first, rest := ApplyFlusher(s, PurgeOne), [s.queue[0]], s.queue[1..];
    assert s.queue == first + rest && Waiting(t) == InHand(s) + rest && t.log.purged == s.log.purged + first;
    FlatJoin(InHand(s), s.queue);
    FlatJoin(InHand(s), rest);
    FlatJoin(first, rest);
    FlatJoin(s.log.purged, first);
    forall kind ensures CountKind(Waiting(t), kind) + CountKind(t.log.purged, kind)
                     == CountKind(Waiting(s), kind) + CountKind(s.log.purged, kind) {
      CountJoin(InHand(s), s.queue, kind);
      CountJoin(InHand(s), rest, kind);
      CountJoin(first, rest, kind);
      CountJoin(s.log.purged, first, kind);
    }
  }

  lemma {:induction false} CountedStep(s: Tx, a: Action)
    requires Counted(s) && Enabled(s, a)
    ensures Counted(Apply(s, a))
  {
    if !Moves(s, a) {
      OthersKeep(s, a);
    } else {
      match a
      case Enqueue(i, frame) => CountedEnqueue(s, i, frame);
      case Write(n) => CountedWrite(s, n);
      case FlushBegin => assert Waiting(Apply(s, a)) == Waiting(s);
      case PurgeOne => CountedPurge(s);
    }
  }

  // Callers other than the one that moves stay where they are.
  lemma {:induction false} OtherCallers(s: Tx, a: Action)
    requires ByCaller(a) && CallerMay(s.callers, a)
    ensures |ApplyCaller(s, a).callers| == |s.callers| && a.i < |s.callers|
    ensures forall j :: 0 <= j < |s.callers| && j != a.i ==> ApplyCaller(s, a).callers[j] == s.callers[j]
  {
  }

  lemma {:induction false} AttendedByCaller(s: Tx, a: Action)
    requires Attended(s) && ByCaller(a) && CallerMay(s.callers, a)
    ensures Attended(ApplyCaller(s, a))
  {
    var t := ApplyCaller(s, a);
    OtherCallers(s, a);
    if a.Enqueue? {
      assert t.callers[a.i].sending;
    } else if SenderInside(s) && !a.Schedule? {
      var i :| 0 <= i < |s.callers| && !s.callers[i].Resting? && s.callers[i].sending;
      assert !t.callers[i].Resting? && t.callers[i].sending;
    }
  }

  lemma {:induction false} AttendedByWorker(s: Tx, a: Action)
    requires Attended(s) && ByWorker(a) && WorkerMay(s.worker, s.bits.pending, a)
    ensures Attended(ApplyWorker(s, a))
  {
    assert ApplyWorker(s, a).callers == s.callers;
  }

  lemma {:induction false} AttendedByFlusher(s: Tx, a: Action)
    requires Attended(s) && ByFlusher(a) && FlusherMay(s.flusher, s.worker, a)
    ensures Attended(ApplyFlusher(s, a))
  {
    assert ApplyFlusher(s, a).callers == s.callers;
  }

  lemma {:induction false} AttendedStep(s: Tx, a: Action)
    requires Attended(s) && Enabled(s, a)
    ensures Attended(Apply(s, a))
  {
    if a.Shift? {
      assert Apply(s, a).callers == s.callers;
    } else {
      hide ApplyCaller, ApplyFlusher, ApplyWorker, Attended;
      if ByCaller(a) { AttendedByCaller(s, a); }
      else if ByFlusher(a) { AttendedByFlusher(s, a); }
      else { AttendedByWorker(s, a); }
    }
  }

  // A caller that is setting WAKEUP or scheduling stays inside until it has scheduled.
  lemma {:induction false} CallerStays(s: Tx, a: Action, flagging: bool)
    requires ByCaller(a) && CallerMay(s.callers, a) && !a.Schedule? && CallerAt(s, flagging)
    ensures CallerAt(ApplyCaller(s, a), flagging)
  {
    var i :| 0 <= i < |s.callers| && (s.callers[i].Scheduling? || (flagging && s.callers[i].Flagging?));
    OtherCallers(s, a);
    var c := ApplyCaller(s, a).callers[i];
    assert c.Scheduling? || (flagging && c.Flagging?);
  }

  lemma {:induction false} BitsByCaller(s: Tx, a: Action)
    requires BitsMean(s) && ByCaller(a) && CallerMay(s.callers, a)
    ensures BitsMean(ApplyCaller(s, a))
  {
    var t := ApplyCaller(s, a);
    if !a.Schedule? {
      if CallerAt(s, false) { CallerStays(s, a, false); }
      if CallerAt(s, true) { CallerStays(s, a, true); }
      if a.SetWakeup? || a.TestAndSetActive? {
        assert t.callers[a.i].Scheduling? || t.callers[a.i].Flagging?;
      }
    }
  }

  lemma {:induction false} BitsByWorker(s: Tx, a: Action)
    requires BitsMean(s) && ByWorker(a) && WorkerMay(s.worker, s.bits.pending, a)
    ensures BitsMean(ApplyWorker(s, a))
  {
    assert ApplyWorker(s, a).callers == s.callers;
  }

  lemma {:induction false} BitsByFlusher(s: Tx, a: Action)
    requires BitsMean(s) && ByFlusher(a) && FlusherMay(s.flusher, s.worker, a)
    ensures BitsMean(ApplyFlusher(s, a))
  {
    assert ApplyFlusher(s, a).callers == s.callers;
  }

  lemma {:induction false} BitsMeanStep(s: Tx, a: Action)
    requires BitsMean(s) && Enabled(s, a)
    ensures BitsMean(Apply(s, a))
  {
    if a.Shift? {
      assert Apply(s, a).callers == s.callers;
    } else {
      hide ApplyCaller, ApplyFlusher, ApplyWorker, BitsMean;
      if ByCaller(a) { BitsByCaller(s, a); }
      else if ByFlusher(a) { BitsByFlusher(s, a); }
      else { BitsByWorker(s, a); }
    }
  }

  lemma {:induction false} NotesMeanStep(s: Tx, a: Action)
    requires NotesMean(s) && Enabled(s, a)
    ensures NotesMean(Apply(s, a))
  {
  }

  lemma {:induction false} InvStep(s: Tx, a: Action)
    requires Inv(s) && Enabled(s, a)
    ensures Inv(Apply(s, a))
  {
    hide Apply, Enabled, Conserved, Faithful, Counted, Attended, BitsMean, NotesMean;
    ConservedStep(s, a);
    FaithfulStep(s, a);
    CountedStep(s, a);
    AttendedStep(s, a);
    BitsMeanStep(s, a);
    NotesMeanStep(s, a);
  }

  lemma {:induction false} NothingSent()
    ensures Faithful(Log([], [], [], [], 0)) && Balanced([], [], [])
  {
    assert WholePieces([]) == [] && AsBufs([]) == [];
  }

  lemma {:induction false} InitInv(callers: nat)
    ensures Inv(Init(callers))
  {
    hide Faithful, Balanced, CallerAt, SenderInside;
    var s := Init(callers);
    assert Waiting(s) == [] && Accepted(s) == [];
    NothingSent();
  }

  lemma {:induction false} ExecInv(s: Tx, acts: seq<Action>)
    requires Inv(s) && Runnable(s, acts)
    ensures Inv(Exec(s, acts))
    decreases |acts|
  {
    if acts != [] {
      InvStep(s, acts[0]);
      ExecInv(Apply(s, acts[0]), acts[1..]);
    }
  }

  /* ---- What every reachable state satisfies ---- */

  ghost predicate Reachable(s: Tx) {
    exists callers: nat, acts :: Runnable(Init(callers), acts) && Exec(Init(callers), acts) == s
  }

  lemma {:induction false} ReachableInv(s: Tx)
    requires Reachable(s)
    ensures Inv(s)
  {
    var callers: nat, acts :| Runnable(Init(callers), acts) && Exec(Init(callers), acts) == s;
    InitInv(callers);
    ExecInv(Init(callers), acts);
  }

  lemma {:induction false} WholeLine(offered: seq<Buf>)
    requires forall frame <- offered :: frame.rest != []
    ensures Line(WholePieces(offered)) == Flat(offered)
  {
    var ps := WholePieces(offered);
    LineFlat(ps);
    assert forall i :: 0 <= i < |ps| ==> AsBuf(ps[i]) == offered[i];
    assert AsBufs(ps) == offered;
  }

  /**
    Whatever the partial writes, the flushes and the interleaving: line, port, buffer in hand and queue joined
    are pieces of the frames sent, in the order of sending and without repetition, and what is missing is what
    flushes have dropped, byte for byte; without them it is all of every frame.
   */
  lemma {:induction false} WireIsConserved(s: Tx)
    requires Reachable(s)
    ensures s.log.wire + s.port + Flat(Waiting(s)) == Line(s.log.sent)
    ensures |Line(s.log.sent)| + |Flat(s.log.purged)| + s.log.lost == |Flat(s.log.offered)|
    ensures Genuine(s.log.sent, s.log.offered) && InOrder(s.log.sent, 0, 0)
    ensures s.log.purged == [] && s.log.lost == 0 ==> s.log.wire + s.port + Flat(Waiting(s)) == Flat(s.log.offered)
  {
    ReachableInv(s);
    BalancedBytes(s.log.sent, Accepted(s), Waiting(s));
    if s.log.purged == [] && s.log.lost == 0 {
      WholeLine(s.log.offered);
    }
  }

  /**
    The counters agree with the whole history.  Every byte counted is on the line, in the port, or was
    discarded from the port; every byte sent is counted, waiting or was purged; and so is every frame, under
    its own kind, which is counted when its last byte is accepted.
   */
  lemma {:induction false} StatisticsAgree(s: Tx)
    requires Reachable(s)
    ensures s.stats.bytes == |s.log.wire| + |s.port| + s.log.lost
    ensures s.stats.bytes + |Flat(Waiting(s))| + |Flat(s.log.purged)| == |Flat(s.log.offered)|
    ensures s.stats.cmd + CountKind(Waiting(s), 1) + CountKind(s.log.purged, 1) == CountKind(s.log.offered, 1)
    ensures s.stats.acl + CountKind(Waiting(s), 2) + CountKind(s.log.purged, 2) == CountKind(s.log.offered, 2)
    ensures s.stats.sco + CountKind(Waiting(s), 3) + CountKind(s.log.purged, 3) == CountKind(s.log.offered, 3)
  {
    ReachableInv(s);
  }

  /**
    With the worker idle, no run pending and no sender between queueing and scheduling: buffers are left in
    the queue if and only if the last drain ended in a partial write, after which the serial core calls for a
    wakeup, or a flush has cancelled a run behind them.  Bare wakeups in progress, stale bits and other
    flushes make no difference.
   */
  lemma {:induction false} NothingStranded(s: Tx)
    requires Reachable(s) && s.worker.Idle? && !s.bits.pending && !SenderInside(s)
    ensures s.queue != [] <==> s.notes.cut || s.notes.orphaned
    ensures s.queue == [] <==> s.log.wire + s.port == Line(s.log.sent)
  {
    ReachableInv(s);
    WireIsConserved(s);
    BalancedBytes(s.log.sent, Accepted(s), Waiting(s));
    assert Waiting(s) == s.queue;
  }

  /**
    At rest a bit is set if and only if a flush has cancelled a pending run with a bit set and no run has ended
    since.
   */
  lemma {:induction false} BitsAtRest(s: Tx)
    requires Reachable(s) && s.worker.Idle? && !s.bits.pending && forall c <- s.callers :: c.Resting?
    ensures s.bits.active || s.bits.wakeup <==> s.notes.cancelled
  {
    ReachableInv(s);
    assert forall i :: 0 <= i < |s.callers| ==> s.callers[i] in s.callers;
  }

  /* ---- When a flush cuts a frame ---- */

  /** A flush discards part of a frame from the port, or drops the rest of a frame from the queue. */
  ghost predicate Tears(s: Tx, a: Action) {
    || (a.FlushBegin? && s.port != [] && !(Boundary(s.log.sent, |s.log.wire|) && Boundary(s.log.sent, |Accepted(s)|)))
    || (a.PurgeOne? && s.queue != [] && InHand(s) == [] && !Boundary(s.log.sent, |Accepted(s)|))
  }

  /** Nothing but a flush at the wrong moment leaves part of a frame where the frame was. */
  lemma {:induction false} WholeStepIff(s: Tx, a: Action)
    requires Conserved(s) && Enabled(s, a) && AllWhole(s.log.sent)
    ensures AllWhole(Apply(s, a).log.sent) <==> !Tears(s, a)
  {
    hide Apply, Enabled, Boundary, Discard, Left, Flat;
    if !Moves(s, a) {
      OthersKeep(s, a);
    } else {
      LogStep(s, a);
      match a
      case Enqueue(i, frame) =>
      case Write(n) =>
      case FlushBegin => DiscardWholeIff(s.log.sent, |s.log.wire|, |Accepted(s)|);
      case PurgeOne => DropWholeIff(s.log.sent, Accepted(s), InHand(s), s.queue);
    }
  }

  ghost predicate Untorn(s: Tx, acts: seq<Action>)
    requires Runnable(s, acts)
    decreases |acts|
  {
    acts == [] || (!Tears(s, acts[0]) && Untorn(Apply(s, acts[0]), acts[1..]))
  }

  lemma {:induction false} UntornRun(s: Tx, acts: seq<Action>)
    requires Inv(s) && AllWhole(s.log.sent) && Runnable(s, acts) && Untorn(s, acts)
    ensures AllWhole(Exec(s, acts).log.sent)
    decreases |acts|
  {
    hide Apply, Enabled, Tears, Conserved, Counted, Faithful, Attended, BitsMean, NotesMean, AllWhole;
    if acts != [] {
      WholeStepIff(s, acts[0]);
      InvStep(s, acts[0]);
      UntornRun(Apply(s, acts[0]), acts[1..]);
    }
  }

  // One more step of a concrete run.
  lemma {:induction false} Then(s: Tx, acts: seq<Action>, a: Action) returns (more: seq<Action>)
    requires Runnable(s, acts) && Enabled(Exec(s, acts), a)
    ensures more == acts + [a] && Runnable(s, more) && Exec(s, more) == Apply(Exec(s, acts), a)
  {
    ExecSnoc(s, acts, a);
    more := acts + [a];
  }

  // The only caller sends a frame.
  lemma {:induction false} Send(acts: seq<Action>, frame: Buf) returns (more: seq<Action>)
    requires Runnable(Init(1), acts) && frame.rest != []
    requires Exec(Init(1), acts).callers == [Resting] && !Exec(Init(1), acts).bits.active
    ensures Runnable(Init(1), more)
    ensures var s := Exec(Init(1), acts);
            Exec(Init(1), more) == s.(queue := s.queue + [frame], log := Offered(s.log, frame),
                                      bits := Bits(true, s.bits.wakeup, true))
  {
    hide Runnable, Exec;
    more := Then(Init(1), acts, Enqueue(0, frame));
    more := Then(Init(1), more, TestAndSetActive(0));
    more := Then(Init(1), more, Schedule(0));
    assert Exec(Init(1), more).callers == [Resting];
  }

  // A flush of at most one buffer, with the worker idle.
  lemma {:induction false} FlushOne(acts: seq<Action>) returns (more: seq<Action>)
    requires Runnable(Init(1), acts)
    requires var s := Exec(Init(1), acts); s.worker.Idle? && s.flusher.Away? && |s.queue| <= 1
    ensures Runnable(Init(1), more)
    ensures var s, t := Exec(Init(1), acts), Exec(Init(1), more);
            && t.queue == [] && t.bits == s.bits.(pending := false) && t.worker.Idle? && t.callers == s.callers
            && t.flusher.Away? && t.port == [] && t.log.wire == s.log.wire
  {
    hide Runnable, Exec, Discard, Flat;
    more := Then(Init(1), acts, FlushBegin);
    more := Then(Init(1), more, PurgeOne);
    if Exec(Init(1), acts).queue != [] {
      more := Then(Init(1), more, PurgeOne);
    }
    more := Then(Init(1), more, CancelWork);
  }

  /** A bit that stays set is real for ACTIVE: a sender, then a flush, and it is set with nothing to do. */
  lemma {:induction false} FlushLeavesActive(p: Buf) returns (acts: seq<Action>)
    requires p.rest != []
    ensures Runnable(Init(1), acts)
    ensures var s := Exec(Init(1), acts);
            && s.bits.active && s.worker.Idle? && !s.bits.pending && s.queue == [] && s.callers == [Resting]
            && s.flusher.Away?
  {
    assert Runnable(Init(1), []) && Exec(Init(1), []) == Init(1) && Init(1).callers == [Resting];
    hide Runnable, Exec;
    acts := Send([], p);
    acts := FlushOne(acts);
  }

  lemma {:induction false} BareWakeup() returns (acts: seq<Action>)
    ensures Runnable(Init(1), acts) && Exec(Init(1), acts) == Init(1).(bits := Bits(true, false, true))
  {
    assert Runnable(Init(1), []) && Exec(Init(1), []) == Init(1);
    hide Runnable, Exec, Discard, Flat;
    acts := Then(Init(1), [], Wakeup(0));
    acts := Then(Init(1), acts, TestAndSetActive(0));
    acts := Then(Init(1), acts, Schedule(0));
    assert Exec(Init(1), acts).callers == [Resting] == Init(1).callers;
  }

  lemma {:induction false} EmptyRun() returns (acts: seq<Action>)
    ensures Runnable(Init(1), acts)
    ensures Exec(Init(1), acts) == Init(1).(bits := Bits(true, false, false), worker := Releasing)
  {
    hide Runnable, Exec, CallerMay, FlusherMay, ApplyCaller, ApplyFlusher;
    acts := BareWakeup();
    acts := Then(Init(1), acts, Start);
    acts := Then(Init(1), acts, ClearWakeup);
    acts := Then(Init(1), acts, Dequeue);
    acts := Then(Init(1), acts, TestWakeup);
  }

  /** And for WAKEUP, with ACTIVE clear: the second wakeup flags after the run has let go of ACTIVE, then a flush. */
  lemma {:induction false} FlushLeavesWakeup() returns (acts: seq<Action>)
    ensures Runnable(Init(1), acts)
    ensures var s := Exec(Init(1), acts);
            && s.bits.wakeup && !s.bits.active && s.worker.Idle? && !s.bits.pending && s.queue == []
            && s.callers == [Resting] && s.flusher.Away?
  {
    hide Runnable, Exec, Discard, Flat;
    acts := EmptyRun();
    acts := Then(Init(1), acts, Wakeup(0));
    acts := Then(Init(1), acts, TestAndSetActive(0));
    assert Exec(Init(1), acts).callers == [Flagging(false)];
    acts := Then(Init(1), acts, ClearActive);
    acts := Then(Init(1), acts, SetWakeup(0));
    acts := Then(Init(1), acts, Schedule(0));
    assert Exec(Init(1), acts).callers == [Resting];
    acts := FlushOne(acts);
  }

  /** A flush can strand a frame: it is queued after the purge, and its run is cancelled. */
  lemma {:induction false} FlushStrands(p: Buf) returns (acts: seq<Action>)
    requires p.rest != []
    ensures Runnable(Init(1), acts)
    ensures var s := Exec(Init(1), acts);
            && s.queue == [p] && !s.notes.cut && s.worker.Idle? && !s.bits.pending && s.callers == [Resting]
            && s.flusher.Away?
  {
    assert Runnable(Init(1), []) && Exec(Init(1), []) == Init(1);
    hide Runnable, Exec, Discard, Flat;
    acts := Then(Init(1), [], FlushBegin);
    acts := Then(Init(1), acts, PurgeOne);
    assert Exec(Init(1), acts).callers == [Resting];
    acts := Send(acts, p);
    acts := Then(Init(1), acts, CancelWork);
  }

  /* ---- The worker always settles ---- */

  // Passes over the queue that are still to come, not counting the one in progress.
  function PassesAhead(s: Tx): nat {
    (if s.bits.pending then 1 else 0) +
    (if s.bits.wakeup && !s.worker.Idle? && !s.worker.Clearing? && !s.worker.Releasing? then 1 else 0)
  }

  function Measure(s: Tx): nat {
    7 * PassesAhead(s) + 3 * |s.queue| +
    match s.worker
    case Idle => 0
    case Releasing => 1
    case Testing => 2
    case Dequeuing => 5
    case Clearing => 6
    case Requeuing(_) => 6
    case Writing(_) => 7
  }

  lemma {:induction false} WorkerStepsDecrease(s: Tx, a: Action)
    requires ByWorker(a) && WorkerMay(s.worker, s.bits.pending, a)
    ensures Measure(ApplyWorker(s, a)) < Measure(s)
  {
  }

  // Steps that need nobody but the worker and the port.
  predicate Quiet(a: Action) {
    ByWorker(a) || a.Shift?
  }

  // Every byte has yet to be accepted by the port and to leave it.
  function Total(s: Tx): nat {
    Measure(s) + 2 * |Flat(Waiting(s))| + |s.port|
  }

  lemma {:induction false} WriteMoves(s: Tx, n: nat)
    requires Enabled(s, Write(n))
    ensures |Flat(Waiting(s))| == n + |Flat(Waiting(ApplyWrite(s, n)))|
  {
    var t, buf := ApplyWrite(s, n), s.worker.buf;
    assert Waiting(s) == [buf] + s.queue;
    assert Waiting(t) == if n < |buf.rest| then [Buf(buf.kind, buf.rest[n..])] + s.queue else s.queue;
    CountFirst(buf, s.queue, 0);
    CountFirst(Buf(buf.kind, buf.rest[n..]), s.queue, 0);
  }

  lemma {:induction false} QuietStep(s: Tx, a: Action)
    requires Enabled(s, a) && Quiet(a)
    ensures Total(Apply(s, a)) < Total(s)
    ensures Apply(s, a).log.sent == s.log.sent && Apply(s, a).callers == s.callers
  {
    if a.Shift? {
      assert Waiting(Apply(s, a)) == Waiting(s);
    } else {
      WorkerStepsDecrease(s, a);
      if a.Write? { WriteMoves(s, a.n); } else { WorkerKeeps(s, a); }
      assert ApplyWorker(s, a).callers == s.callers && ApplyWorker(s, a).log.sent == s.log.sent;
    }
  }

  lemma {:induction false} Settles(s: Tx, acts: seq<Action>)
    requires Runnable(s, acts) && forall a <- acts :: Quiet(a)
    ensures |acts| <= Total(s)
    ensures Exec(s, acts).log.sent == s.log.sent && Exec(s, acts).callers == s.callers
    decreases |acts|
  {
    hide Apply, Enabled, Total;
    if acts != [] {
      assert Quiet(acts[0]);
      QuietStep(s, acts[0]);
      forall a <- acts[1..] ensures Quiet(a) { assert a in acts; }
      Settles(Apply(s, acts[0]), acts[1..]);
    }
  }

  ghost predicate Settled(s: Tx) {
    forall a :: Quiet(a) ==> !Enabled(s, a)
  }

  lemma {:induction false} SettledIsIdle(s: Tx)
    ensures Settled(s) <==> s.worker.Idle? && !s.bits.pending && s.port == []
  {
    if Settled(s) {
      assert !Enabled(s, Start) && !Enabled(s, ClearWakeup) && !Enabled(s, Dequeue) && !Enabled(s, Write(0));
      assert !Enabled(s, Requeue) && !Enabled(s, TestWakeup) && !Enabled(s, ClearActive);
      assert !Enabled(s, Shift(1));
    }
  }

  /**
    Left to themselves after the senders have returned, the worker and the port stop within Total steps, and
    when they can go no further, all that was to be sent is on the line if and only if the last drain did not
    end in a partial write and no flush has cancelled the run that was due.
   */
  lemma {:induction false} QuietRunDrains(s: Tx, acts: seq<Action>)
    requires Reachable(s) && Runnable(s, acts) && (forall a <- acts :: Quiet(a)) && !SenderInside(s)
    ensures |acts| <= Total(s)
    ensures var t := Exec(s, acts);
            && t.log.sent == s.log.sent
            && (Settled(t) ==> (t.log.wire == Line(s.log.sent) <==> !t.notes.cut && !t.notes.orphaned))
  {
    Settles(s, acts);
    var t := Exec(s, acts);
    ReachableOn(s, acts);
    SettledIsIdle(t);
    if Settled(t) {
      NothingStranded(t);
      assert t.log.wire + t.port == t.log.wire;
    }
  }

  /** The port takes every buffer in full. */
  ghost predicate Roomy(s: Tx, acts: seq<Action>)
    requires Runnable(s, acts)
    decreases |acts|
  {
    acts == [] || (
      && (acts[0].Write? ==> acts[0].n == |s.worker.buf.rest|)
      && Roomy(Apply(s, acts[0]), acts[1..]))
  }

  // No partial write in the drain so far, and no run cancelled with buffers waiting; or a drain is about to begin.
  predicate Clean(s: Tx) {
    || (s.worker.Idle? && s.bits.pending)
    || s.worker.Clearing?
    || (!s.notes.cut && !s.notes.orphaned && !s.worker.Requeuing?)
  }

  lemma {:induction false} CleanStep(s: Tx, a: Action)
    requires Enabled(s, a) && Quiet(a) && Clean(s) && (a.Write? ==> a.n == |s.worker.buf.rest|)
    ensures Clean(Apply(s, a))
  {
  }

  lemma {:induction false} RoomyRunIsClean(s: Tx, acts: seq<Action>)
    requires Runnable(s, acts) && (forall a <- acts :: Quiet(a)) && Roomy(s, acts) && Clean(s)
    ensures Clean(Exec(s, acts))
    decreases |acts|
  {
    if acts != [] {
      assert Quiet(acts[0]);
      CleanStep(s, acts[0]);
      forall a <- acts[1..] ensures Quiet(a) { assert a in acts; }
      RoomyRunIsClean(Apply(s, acts[0]), acts[1..]);
    }
  }

  /**
    With room on the port the worker writes everything: from any reachable idle state with a run pending and
    no sender inside, once worker and port can go no further all that was to be sent is on the line.
   */
  lemma {:induction false} RoomyRunDelivers(s: Tx, acts: seq<Action>)
    requires Reachable(s) && s.worker.Idle? && s.bits.pending && !SenderInside(s)
    requires Runnable(s, acts) && (forall a <- acts :: Quiet(a)) && Roomy(s, acts)
    ensures var t := Exec(s, acts);
            Settled(t) ==> t.log.wire == Line(s.log.sent) && t.queue == []
  {
    RoomyRunIsClean(s, acts);
    QuietRunDrains(s, acts);
    Settles(s, acts);
    ReachableOn(s, acts);
    var t := Exec(s, acts);
    SettledIsIdle(t);
    if Settled(t) {
      NothingStranded(t);
    }
  }

  /* ---- Partial writes do not stop delivery ---- */

  /** No new frame is sent, and the port takes at least one byte of each buffer. */
  ghost predicate Eager(s: Tx, acts: seq<Action>)
    requires Runnable(s, acts)
    decreases |acts|
  {
    acts == [] || (
      && !acts[0].Enqueue? && (acts[0].Write? ==> acts[0].n > 0)
      && Eager(Apply(s, acts[0]), acts[1..]))
  }

  function RunsEnded(acts: seq<Action>): nat {
    if acts == [] then 0 else (if acts[0].ClearActive? then 1 else 0) + RunsEnded(acts[1..])
  }

  // The runs that may still have to end before nothing waits: one for each byte, and the one that is ending.
  function RunsOwed(s: Tx): nat {
    var bytes := |Flat(Waiting(s))|;
    if bytes > 0 && (s.worker.Requeuing? || s.worker.Testing? || s.worker.Releasing?) then bytes + 1 else bytes
  }

  lemma {:induction false} OwedStep(s: Tx, a: Action)
    requires Conserved(s) && Enabled(s, a) && !a.Enqueue? && (a.Write? ==> a.n > 0)
    ensures RunsOwed(Apply(s, a)) + (if a.ClearActive? && RunsOwed(s) > 0 then 1 else 0) <= RunsOwed(s)
  {
    if a.Write? {
      WriteMoves(s, a.n);
    } else if a.PurgeOne? && s.queue != [] {
      FlatJoin(InHand(s), s.queue);
      FlatJoin(InHand(s), s.queue[1..]);
      assert Waiting(Apply(s, a)) == InHand(s) + s.queue[1..];
    } else if a.FlushBegin? {
      assert Waiting(Apply(s, a)) == Waiting(s);
    } else {
      OthersKeep(s, a);
    }
  }

  lemma {:induction false} OwedRun(s: Tx, acts: seq<Action>)
    requires Inv(s) && Runnable(s, acts) && Eager(s, acts)
    ensures RunsOwed(Exec(s, acts)) <= if RunsEnded(acts) >= RunsOwed(s) then 0 else RunsOwed(s) - RunsEnded(acts)
    decreases |acts|
  {
    hide Apply, Enabled, RunsOwed, Conserved, Counted, Faithful, Attended, BitsMean, NotesMean;
    if acts != [] {
      OwedStep(s, acts[0]);
      InvStep(s, acts[0]);
      OwedRun(Apply(s, acts[0]), acts[1..]);
    }
  }

  /**
    If the port takes at least one byte at every write, partial writes only cost runs: without new frames,
    whatever wakeups, flushes and shifts come between, after as many runs as there are bytes waiting (and
    the one that is ending) nothing waits, and once the port is empty all that was to be sent is on the line.
   */
  lemma {:induction false} EagerRunsDeliver(s: Tx, acts: seq<Action>)
    requires Reachable(s) && Runnable(s, acts) && Eager(s, acts) && RunsEnded(acts) >= RunsOwed(s)
    ensures var t := Exec(s, acts);
            && Waiting(t) == [] && t.log.wire + t.port == Line(t.log.sent)
            && (t.port == [] ==> t.log.wire == Line(t.log.sent))
  {
    var t := Exec(s, acts);
    ReachableInv(s);
    OwedRun(s, acts);
    ReachableOn(s, acts);
    ReachableInv(t);
    WireIsConserved(t);
    BalancedBytes(t.log.sent, Accepted(t), Waiting(t));
    if Waiting(t) != [] {
      assert Flat(Waiting(t)) == Waiting(t)[0].rest + Flat(Waiting(t)[1..]);
    }
  }

  lemma {:induction false} ExecJoin(s: Tx, a: seq<Action>, b: seq<Action>)
    requires Runnable(s, a) && Runnable(Exec(s, a), b)
    ensures Runnable(s, a + b) && Exec(s, a + b) == Exec(Exec(s, a), b)
    decreases |a|
  {
    if a == [] {
      assert a + b == b;
    } else {
      assert (a + b)[1..] == a[1..] + b;
      ExecJoin(Apply(s, a[0]), a[1..], b);
    }
  }

  lemma {:induction false} ReachableOn(s: Tx, acts: seq<Action>)
    requires Reachable(s) && Runnable(s, acts)
    ensures Reachable(Exec(s, acts))
  {
    var callers: nat, before :| Runnable(Init(callers), before) && Exec(Init(callers), before) == s;
    ExecJoin(Init(callers), before, acts);
  }
}
