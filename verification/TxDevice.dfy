/**
  The transmit side of the driver as it is written: a queue, two bits and counters, updated in place by the
  worker's two nested loops, by the callers and by a flush.  Between any two atomic operations of the worker
  other parties may run; each operation is one step of TxMachine, so every run of this code is a run of the
  machine and keeps what TxSafety proves.
 */
module TxDevice {
  import opened Bytes
  import opened StpFramer
  import opened TxLine
  import opened TxMachine
  import opened TxSafety

  class Transmitter {
    var txq: seq<Buf>
    // The ACTIVE and WAKEUP bits of the transmit state, and whether the work item is pending.
    var bits: Bits
    var stat: Stats

    // The environment: where the parties stand, the bytes in the serial port, what the others will do at each
    // point where this code can be overtaken, and how much room the port will have at each write (all it
    // needs, once exhausted).
    var worker: Worker
    var callers: seq<Caller>
    var flusher: Flusher
    var port: seq<byte>
    var bursts: seq<seq<Action>>
    var room: seq<nat>

    ghost var notes: Notes
    ghost var log: Log
    ghost const size: nat
    ghost var trace: seq<Action>

    ghost function State(): Tx
      reads this
    {
      Tx(txq, bits, worker, callers, flusher, port, notes, stat, log)
    }

    ghost predicate Valid()
      reads this
    {
      Runnable(Init(size), trace) && Exec(Init(size), trace) == State()
    }

    // The run recorded so far continues an earlier one by exactly the step a.
    ghost predicate Stepped(before: seq<Action>, a: Action)
      reads this
    {
      Valid() && trace == before + [a]
    }

    constructor (size: nat, bursts: seq<seq<Action>>, room: seq<nat>)
      ensures Valid() && State() == Init(size) && this.size == size
      ensures this.bursts == bursts && this.room == room
    {
      this.size, this.bursts, this.room := size, bursts, room;
      txq, bits, stat := [], Bits(false, false, false), Stats(0, 0, 0, 0);
      worker, callers, flusher, port := Idle, seq(size, _ => Resting), Away, [];
      notes, log, trace := Notes(false, false, false), Log([], [], [], [], 0), [];
    }

    /** What TxSafety says of every reachable state, said of this object. */
    lemma {:induction false} Facts()
      requires Valid()
      ensures log.wire + port + Flat(InHand(State()) + txq) == Line(log.sent)
      ensures Faithful(log) && Counted(State()) && BitsMean(State())
      ensures worker.Idle? && !bits.pending && !SenderInside(State()) ==> (txq != [] <==> notes.cut || notes.orphaned)
    {
      var s := State();
      assert Reachable(s);
      WireIsConserved(s);
      ReachableInv(s);
      if worker.Idle? && !bits.pending && !SenderInside(s) {
        NothingStranded(s);
      }
    }

    ghost method Record(s: Tx, a: Action)
      requires Runnable(Init(size), trace) && Exec(Init(size), trace) == s
      requires Enabled(s, a) && State() == Apply(s, a)
      modifies this`trace
      ensures Stepped(old(trace), a)
    {
      ExecSnoc(Init(size), trace, a);
      trace := trace + [a];
    }

    /* ---- Callers ---- */

    method QueueTail(i: nat, frame: Buf)
      requires Valid() && Enabled(State(), Enqueue(i, frame))
      modifies this`txq, this`callers, this`log, this`trace
      ensures Stepped(old(trace), Enqueue(i, frame))
      ensures txq == old(txq) + [frame] && callers == old(callers)[i := Entered(true)]
      ensures log == Offered(old(log), frame)
    {
      ghost var s := State();
      txq := txq + [frame];
      callers := callers[i := Entered(true)];
      log := Offered(log, frame);
      Record(s, Enqueue(i, frame));
    }

    method EnterWakeup(i: nat)
      requires Valid() && Enabled(State(), Wakeup(i))
      modifies this`callers, this`trace
      ensures Stepped(old(trace), Wakeup(i))
      ensures callers == old(callers)[i := Entered(false)]
    {
      ghost var s := State();
      callers := callers[i := Entered(false)];
      Record(s, Wakeup(i));
    }

    method TestAndSet(i: nat) returns (was: bool)
      requires Valid() && Enabled(State(), TestAndSetActive(i))
      modifies this`bits, this`callers, this`trace
      ensures was == old(bits).active
      ensures Stepped(old(trace), TestAndSetActive(i))
      ensures bits == old(bits).(active := true)
      ensures var sending := old(callers)[i].sending;
              callers == old(callers)[i := if was then Flagging(sending) else Scheduling(sending)]
    {
      ghost var s := State();
      was, bits := bits.active, bits.(active := true);
      callers := callers[i := if was then Flagging(callers[i].sending) else Scheduling(callers[i].sending)];
      Record(s, TestAndSetActive(i));
    }

    method SetWakeupBit(i: nat)
      requires Valid() && Enabled(State(), SetWakeup(i))
      modifies this`bits, this`callers, this`trace
      ensures Stepped(old(trace), SetWakeup(i))
      ensures bits == old(bits).(wakeup := true) && callers == old(callers)[i := Scheduling(old(callers)[i].sending)]
    {
      ghost var s := State();
      bits := bits.(wakeup := true);
      callers := callers[i := Scheduling(callers[i].sending)];
      Record(s, SetWakeup(i));
    }

    method ScheduleWork(i: nat)
      requires Valid() && Enabled(State(), Schedule(i))
      modifies this`bits, this`callers, this`trace
      ensures Stepped(old(trace), Schedule(i))
      ensures bits == old(bits).(pending := true) && callers == old(callers)[i := Resting]
    {
      ghost var s := State();
      bits := bits.(pending := true);
      callers := callers[i := Resting];
      Record(s, Schedule(i));
    }

    // The wakeup routine of one caller, when nobody overtakes it.
    method TxWakeup(i: nat)
      requires Valid() && i < |callers| && callers[i].Entered?
      modifies this`bits, this`callers, this`trace
      ensures Valid() && old(trace) <= trace
      ensures bits == Bits(true, old(bits).wakeup || old(bits).active, true)
      ensures callers == old(callers)[i := Resting]
    {
      var was := TestAndSet(i);
      if was {
        SetWakeupBit(i);
      }
      ScheduleWork(i);
      assert callers == old(callers)[i := Resting];
    }

    /** Sending one packet: frame it, queue it, wake the worker.  A packet that cannot be framed is not queued. */
    method SendFrame(i: nat, skb: Skb, memory: bool) returns (err: int)
      requires Valid() && i < |callers| && callers[i].Resting? && skb.headroom >= 1
      modifies this`txq, this`bits, this`callers, this`log, this`trace, skb
      ensures Valid() && old(trace) <= trace
      ensures err == 0 <==> memory || (old(skb.headroom) >= 5 && old(skb.tailroom) >= 2)
      ensures err == 0 ==> (
        var frame := Buf(skb.pktType, Framed([skb.pktType] + old(skb.data)));
        && txq == old(txq) + [frame] && log == Offered(old(log), frame)
        && bits == Bits(true, old(bits).wakeup || old(bits).active, true) && callers == old(callers))
      ensures err != 0 ==> err == -12 && State() == old(State()) && skb.data == [skb.pktType] + old(skb.data)
    {
      err := Encapsulate(skb, memory);
      if err < 0 { return; }
      QueueTail(i, Buf(skb.pktType, skb.data));
      TxWakeup(i);
      assert callers == old(callers);
      err := 0;
    }

    /* ---- The flusher ---- */

    // Empties the serial port.
    method BeginFlush()
      requires Valid() && flusher.Away?
      modifies this`port, this`flusher, this`log, this`trace
      ensures Stepped(old(trace), FlushBegin) && flusher == Purging && port == []
      ensures log == PortEmptied(old(log), |old(port)|)
    {
      ghost var s := State();
      log := PortEmptied(log, |port|);
      port, flusher := [], Purging;
      Record(s, FlushBegin);
    }

    // Drops the first queued buffer, or finds none and goes on to cancelling.
    method PurgeBuffer()
      requires Valid() && flusher.Purging?
      modifies this`txq, this`flusher, this`notes, this`log, this`trace
      ensures Stepped(old(trace), PurgeOne)
      ensures log.wire == old(log).wire
      ensures if old(txq) == [] then flusher == Cancelling && txq == [] && log == old(log)
              else flusher == Purging && txq == old(txq)[1..] && log.purged == old(log).purged + [old(txq)[0]]
      ensures notes == if |old(txq)| == 1 then old(notes).(cut := false, orphaned := false) else old(notes)
    {
      ghost var s := State();
      hide Discard, InHand, Flat;
      if txq == [] {
        flusher := Cancelling;
      } else {
        log := Purged(log, |port| + |Flat(InHand(s))|, txq[0]);
        notes := if |txq| == 1 then notes.(cut := false, orphaned := false) else notes;
        txq := txq[1..];
      }
      Record(s, PurgeOne);
    }

    method CancelRun()
      requires Valid() && flusher.Cancelling? && worker.Idle?
      modifies this`bits, this`flusher, this`notes, this`trace
      ensures Stepped(old(trace), CancelWork)
      ensures flusher == Away && bits == old(bits).(pending := false)
    {
      ghost var s := State();
      notes := notes.(cancelled := notes.cancelled || (bits.pending && (bits.active || bits.wakeup)),
                      orphaned := notes.orphaned || (bits.pending && txq != []));
      bits, flusher := bits.(pending := false), Away;
      Record(s, CancelWork);
    }

    /**
      A flush, wherever the worker stands: empties the port, purges the queue, buffer by buffer, waits for the
      worker, and cancels a scheduled run; ACTIVE and WAKEUP are left as they are.  Callers, worker and port
      may overtake it.  It ends because the worker does.
     */
    method Flush()
      requires Valid() && flusher.Away?
      modifies this
      ensures Valid() && old(trace) <= trace
      ensures flusher.Away? && worker.Idle? && !bits.pending
      ensures old(bursts) == [] && old(worker).Idle? ==>
                && txq == [] && port == [] && log.wire == old(log).wire
                && callers == old(callers) && bits == old(bits).(pending := false)
    {
      BeginFlush();
      while flusher.Purging?
        invariant Valid() && old(trace) <= trace && !flusher.Away?
        invariant flusher.Cancelling? && old(bursts) == [] ==> txq == []
        invariant old(bursts) == [] ==> bursts == [] && worker == old(worker) && callers == old(callers)
        invariant old(bursts) == [] ==> bits == old(bits) && port == [] && log.wire == old(log).wire
        decreases |bursts|, flusher.Purging?, |txq|
      {
        PurgeBuffer();
        Interrupted();
      }
      AwaitWorker();
      CancelRun();
    }

    // Waiting for the worker, which may be overtaken as ever.
    method AwaitWorker()
      requires Valid() && flusher.Cancelling?
      modifies this
      ensures Valid() && old(trace) <= trace && flusher.Cancelling? && worker.Idle?
      ensures old(worker).Idle? ==> State() == old(State()) && bursts == old(bursts)
    {
      while !worker.Idle?
        invariant Valid() && old(trace) <= trace && flusher.Cancelling?
        invariant old(worker).Idle? ==> State() == old(State()) && bursts == old(bursts)
        decreases |bursts|, Measure(State())
      {
        WorkerGoesOn();
        Overtaken();
      }
    }

    // The worker takes its next step.
    method WorkerGoesOn()
      requires Valid() && !worker.Idle?
      modifies this`txq, this`bits, this`worker, this`stat, this`port, this`notes, this`trace, this`room
      ensures Valid() && old(trace) <= trace && Measure(State()) < old(Measure(State()))
    {
      match worker {
        case Clearing => WorkerStep(ClearWakeup);
        case Dequeuing => WorkerStep(Dequeue);
        case Writing(skb) =>
          var len := PortTakes(|skb.rest|);
          WorkerStep(Write(len));
        case Requeuing(_) => WorkerStep(Requeue);
        case Testing => WorkerStep(TestWakeup);
        case Releasing => WorkerStep(ClearActive);
      }
    }

    method WorkerStep(a: Action)
      requires Valid() && ByWorker(a) && WorkerMay(worker, bits.pending, a)
      modifies this`txq, this`bits, this`worker, this`stat, this`port, this`notes, this`trace
      ensures Stepped(old(trace), a) && Measure(State()) < old(Measure(State()))
    {
      ghost var s := State();
      match a {
        case Start => Begin();
        case ClearWakeup => ClearWakeupBit();
        case Dequeue => var _ := TakeHead();
        case Write(n) => var _ := Pull(worker.buf, n);
        case Requeue => PutBack(worker.buf);
        case TestWakeup => var _ := TestWakeupBit();
        case ClearActive => ClearActiveBit();
      }
      ExecSnoc(Init(size), old(trace), a);
      WorkerStepsDecrease(s, a);
    }

    /* ---- The environment ---- */

    method Perform(a: Action)
      requires Valid() && ByCaller(a) && CallerMay(callers, a)
      modifies this`txq, this`bits, this`callers, this`log, this`trace
      ensures Stepped(old(trace), a)
    {
      match a
      case Enqueue(i, frame) => QueueTail(i, frame);
      case Wakeup(i) => EnterWakeup(i);
      case TestAndSetActive(i) => var _ := TestAndSet(i);
      case SetWakeup(i) => SetWakeupBit(i);
      case Schedule(i) => ScheduleWork(i);
    }

    // The serial port passes some of its bytes on to the line.
    method ShiftOut(k: nat)
      requires Valid() && 0 < k <= |port|
      modifies this`port, this`log, this`trace
      ensures Stepped(old(trace), Shift(k))
      ensures port == old(port)[k..] && log == old(log).(wire := old(log).wire + old(port)[..k])
    {
      ghost var s := State();
      log := log.(wire := log.wire + port[..k]);
      port := port[k..];
      Record(s, Shift(k));
    }

    // One step of a burst, if it can be taken now; a flush gets as far as waiting for the worker.
    method PerformIfAble(a: Action)
      requires Valid()
      modifies this`txq, this`bits, this`callers, this`flusher, this`port, this`notes, this`log, this`trace
      ensures Valid() && old(trace) <= trace && NoWorse(old(flusher), old(notes))
    {
      if ByCaller(a) && CallerMay(callers, a) {
        Perform(a);
      } else if a.FlushBegin? && flusher.Away? {
        BeginFlush();
      } else if a.PurgeOne? && flusher.Purging? {
        PurgeBuffer();
      } else if a.Shift? && 0 < a.k <= |port| {
        ShiftOut(a.k);
      }
    }

    // A flush that has begun has not ended, nor one that waits gone back, and no note has been set.
    predicate Onward(before: Flusher)
      reads this
    {
      (before.Purging? ==> !flusher.Away?) && (before.Cancelling? ==> flusher.Cancelling?)
    }

    ghost predicate NoWorse(before: Flusher, noted: Notes)
      reads this
    {
      && Onward(before)
      && (notes.cut ==> noted.cut) && (notes.orphaned ==> noted.orphaned) && notes.cancelled == noted.cancelled
    }

    // A point where this code can be overtaken: the others take the next burst of steps, if there is one.
    method Overtaken()
      requires Valid()
      modifies this`txq, this`bits, this`callers, this`flusher, this`port, this`notes, this`log, this`trace, this`bursts
      ensures Valid() && old(trace) <= trace && NoWorse(old(flusher), old(notes))
      ensures if old(bursts) == [] then bursts == [] && State() == old(State()) else bursts == old(bursts)[1..]
    {
      if bursts == [] { return; }
      var burst := bursts[0];
      bursts := bursts[1..];
      while burst != []
        invariant Valid() && old(trace) <= trace && bursts == old(bursts)[1..] && NoWorse(old(flusher), old(notes))
        decreases |burst|
      {
        PerformIfAble(burst[0]);
        burst := burst[1..];
      }
    }

    // The same for the flusher, which the worker may overtake too.
    method Interrupted()
      requires Valid()
      modifies this
      ensures Valid() && old(trace) <= trace && Onward(old(flusher))
      ensures if old(bursts) == [] then bursts == [] && State() == old(State()) else bursts == old(bursts)[1..]
    {
      if bursts == [] { return; }
      var burst := bursts[0];
      bursts := bursts[1..];
      while burst != []
        invariant Valid() && old(trace) <= trace && bursts == old(bursts)[1..] && Onward(old(flusher))
        decreases |burst|
      {
        if ByWorker(burst[0]) && WorkerMay(worker, bits.pending, burst[0]) {
          WorkerStep(burst[0]);
        } else {
          PerformIfAble(burst[0]);
        }
        burst := burst[1..];
      }
    }

    /* ---- The worker ---- */

    method Begin()
      requires Valid() && Enabled(State(), Start)
      modifies this`bits, this`worker, this`trace
      ensures Stepped(old(trace), Start)
      ensures bits == old(bits).(pending := false) && worker == Clearing
    {
      ghost var s := State();
      bits := bits.(pending := false);
      worker := Clearing;
      Record(s, Start);
    }

    method ClearWakeupBit()
      requires Valid() && worker.Clearing?
      modifies this`bits, this`notes, this`worker, this`trace
      ensures Stepped(old(trace), ClearWakeup)
      ensures bits == old(bits).(wakeup := false) && !notes.cut && !notes.orphaned && worker == Dequeuing
    {
      ghost var s := State();
      bits := bits.(wakeup := false);
      notes, worker := notes.(cut := false, orphaned := false), Dequeuing;
      Record(s, ClearWakeup);
    }

    method TakeHead() returns (skb: Option<Buf>)
      requires Valid() && worker.Dequeuing?
      modifies this`txq, this`worker, this`trace
      ensures Stepped(old(trace), Dequeue)
      ensures txq == (if old(txq) == [] then [] else old(txq)[1..])
      ensures worker == if skb.None? then Testing else Writing(skb.value)
      ensures skb == (if old(txq) == [] then None else Some(old(txq)[0]))
    {
      ghost var s := State();
      if txq == [] {
        skb := None;
        worker := Testing;
      } else {
        skb := Some(txq[0]);
        txq := txq[1..];
        worker := Writing(skb.value);
      }
      Record(s, Dequeue);
    }

    // The serial port takes some or all of size bytes.
    method PortTakes(size: nat) returns (len: nat)
      modifies this`room
      ensures len <= size
      ensures old(room) == [] ==> len == size && room == []
    {
      len := size;
      if room != [] {
        if room[0] < len { len := room[0]; }
        room := room[1..];
      }
    }

    // Accounts for len bytes written, pulls them off the buffer, and counts a frame that is all out.
    method Pull(skb: Buf, len: nat) returns (left: Buf)
      requires Valid() && worker == Writing(skb) && len <= |skb.rest|
      modifies this`stat, this`port, this`worker, this`trace
      ensures left == Buf(skb.kind, skb.rest[len..]) && stat.bytes == old(stat).bytes + len
      ensures Stepped(old(trace), Write(len)) && port == old(port) + skb.rest[..len]
      ensures worker == if len < |skb.rest| then Requeuing(left) else Dequeuing
    {
      ghost var s := State();
      port := port + skb.rest[..len];
      stat := stat.(bytes := stat.bytes + len);
      left := Buf(skb.kind, skb.rest[len..]);
      if |left.rest| == 0 {
        CountFrame(skb.kind);
        worker := Dequeuing;
      } else {
        worker := Requeuing(left);
      }
      assert Apply(s, Write(len)) == ApplyWrite(s, len);
      Record(s, Write(len));
    }

    method CountFrame(kind: byte)
      modifies this`stat
      ensures stat == old(stat).Count(kind)
      ensures stat.cmd == old(stat).cmd + if kind == 1 then 1 else 0
      ensures stat.acl == old(stat).acl + if kind == 2 then 1 else 0
      ensures stat.sco == old(stat).sco + if kind == 3 then 1 else 0
    {
      match kind {
        case 1 => stat := stat.(cmd := stat.cmd + 1);
        case 2 => stat := stat.(acl := stat.acl + 1);
        case 3 => stat := stat.(sco := stat.sco + 1);
        case _ =>
      }
    }

    method PutBack(skb: Buf)
      requires Valid() && worker == Requeuing(skb)
      modifies this`txq, this`notes, this`worker, this`trace
      ensures Stepped(old(trace), Requeue)
      ensures txq == [skb] + old(txq) && notes == old(notes).(cut := true) && worker == Testing
    {
      ghost var s := State();
      txq := [skb] + txq;
      notes, worker := notes.(cut := true), Testing;
      Record(s, Requeue);
    }

    method TestWakeupBit() returns (isSet: bool)
      requires Valid() && worker.Testing?
      modifies this`worker, this`trace
      ensures Stepped(old(trace), TestWakeup) && isSet == bits.wakeup
      ensures worker == if isSet then Clearing else Releasing
    {
      ghost var s := State();
      isSet := bits.wakeup;
      worker := if isSet then Clearing else Releasing;
      Record(s, TestWakeup);
    }

    method ClearActiveBit()
      requires Valid() && worker.Releasing?
      modifies this`bits, this`notes, this`worker, this`trace
      ensures Stepped(old(trace), ClearActive)
      ensures bits == old(bits).(active := false) && notes == old(notes).(cancelled := false) && worker == Idle
    {
      ghost var s := State();
      bits := bits.(active := false);
      notes, worker := notes.(cancelled := false), Idle;
      Record(s, ClearActive);
    }

    // Nothing but recorded steps has happened, WAKEUP has been set only if others took some of them, and
    // without others and with room on the port nothing has been left behind.
    twostate predicate Went()
      reads this
    {
      && Valid() && old(trace) <= trace
      && |bursts| <= old(|bursts|)
      && (|bursts| == old(|bursts|) ==> (bits.wakeup ==> old(bits.wakeup)))
      && (old(bursts) == [] ==> bits.pending == old(bits.pending) && callers == old(callers))
      && (old(room) == [] ==> room == [] && (notes.cut ==> old(notes.cut)))
      && (notes.orphaned ==> old(notes.orphaned))
    }

    // The inner loop's body: one buffer is taken off the queue and written; more says whether to go on.
    method DrainOne() returns (more: bool)
      requires Valid() && worker.Dequeuing?
      modifies this
      ensures Went() && worker == if more then Dequeuing else Testing
      ensures more && |bursts| == |old(bursts)| ==> |txq| < |old(txq)|
    {
      var skb := TakeHead();
      Overtaken();
      if skb.None? {
        more := false;
      } else {
        more := WriteOne(skb.value);
      }
    }

    method WriteOne(skb: Buf) returns (all: bool)
      requires Valid() && worker == Writing(skb)
      modifies this
      ensures Went() && worker == if all then Dequeuing else Testing
      ensures all && |bursts| == |old(bursts)| ==> |txq| <= |old(txq)|
    {
      var len := PortTakes(|skb.rest|);
      var left := Pull(skb, len);
      Overtaken();
      all := len == |skb.rest|;
      if !all {
        GiveBack(left);
      }
    }

    method GiveBack(left: Buf)
      requires Valid() && worker == Requeuing(left)
      modifies this`txq, this`bits, this`callers, this`flusher, this`port, this`log, this`trace, this`bursts,
        this`notes, this`worker
      ensures Valid() && old(trace) <= trace && worker == Testing
      ensures if old(bursts) == [] then bursts == [] && bits == old(bits) && callers == old(callers)
              else |bursts| < |old(bursts)|
      ensures notes.orphaned ==> old(notes).orphaned
    {
      PutBack(left);
      Overtaken();
    }

    // The inner loop: buffers go out one after the other until the queue is empty or the port is full.
    method Drain()
      requires Valid() && worker.Dequeuing?
      modifies this
      ensures Went() && worker.Testing?
    {
      var more := true;
      while more
        invariant Went() && worker == if more then Dequeuing else Testing
        decreases |bursts|, if more then |txq| + 1 else 0
      {
        more := DrainOne();
      }
    }

    // The outer loop's body: one drain, and a look at whether somebody asked for another meanwhile.
    method Pass() returns (again: bool)
      requires Valid() && worker.Clearing?
      modifies this
      ensures Valid() && old(trace) <= trace && worker == if again then Clearing else Releasing
      ensures |bursts| <= |old(bursts)| && (again ==> |bursts| < |old(bursts)|)
      ensures !notes.orphaned && (old(room) == [] ==> room == [] && !notes.cut)
      ensures old(bursts) == [] ==> bits.pending == old(bits).pending && callers == old(callers)
    {
      ClearWakeupBit();
      Overtaken();
      Drain();
      again := TestWakeupBit();
      if again {
        Overtaken();
      }
    }

    /**
      One run of the worker.  However it is overtaken, it is a run of the machine from the state it found to
      an idle one, so the invariants hold at every step; it ends because the others take finitely many
      steps.  With room on the port it leaves nothing half written, and if besides nobody interferes and no
      sender is inside, all that was to be sent is out.
     */
    method TxWork()
      requires Valid() && worker.Idle? && bits.pending
      modifies this
      ensures Valid() && worker.Idle? && old(trace) <= trace
      ensures !notes.orphaned && (old(room) == [] ==> !notes.cut)
      ensures !bits.pending && !SenderInside(State()) ==> (txq != [] <==> notes.cut)
      ensures !bits.pending && !SenderInside(State()) && txq == [] ==> log.wire + port == Line(log.sent)
      ensures old(room) == [] && old(bursts) == [] && !old(SenderInside(State())) ==>
                txq == [] && log.wire + port == Line(log.sent)
    {
      Begin();
      Overtaken();
      var again := Pass();
      while again
        invariant Valid() && old(trace) <= trace && worker == if again then Clearing else Releasing
        invariant |bursts| <= |old(bursts)| && (again ==> |bursts| < |old(bursts)|)
        invariant !notes.orphaned && (old(room) == [] ==> room == [] && !notes.cut)
        invariant old(bursts) == [] ==> !bits.pending && callers == old(callers)
        decreases |bursts|, again
      {
        again := Pass();
      }
      Overtaken();
      ClearActiveBit();
      if !bits.pending && !SenderInside(State()) {
        NothingStranded(State());
      }
    }
  }
}
