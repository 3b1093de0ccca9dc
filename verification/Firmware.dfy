/** Firmware download: the image behind its 30-byte header goes out in flagged chunks, one command each. */
module Firmware {
  import opened Bytes
  import opened Wmt

  const PATCH_HDR_SIZE := 30
  const CHUNK := 250

  const FIRST: byte := 1
  const MIDDLE: byte := 2
  const LAST: byte := 3

  /* ---- The chunks of an image, by position ---- */

  function Count(image: seq<byte>): nat
    requires |image| >= PATCH_HDR_SIZE
  {
    (|image| - PATCH_HDR_SIZE + CHUNK - 1) / CHUNK
  }

  function Chunk(image: seq<byte>, k: nat): (chunk: seq<byte>)
    requires |image| >= PATCH_HDR_SIZE && k < Count(image)
    ensures 1 <= |chunk| <= 250
    ensures k < Count(image) - 1 ==> |chunk| == 250
  {
    var from := PATCH_HDR_SIZE + CHUNK * k;
    if from + CHUNK <= |image| then image[from..from + CHUNK] else image[from..]
  }

  function Flag(k: nat, count: nat): byte {
    if k + 1 == count then LAST else if k == 0 then FIRST else MIDDLE
  }

  function ChunkCommand(image: seq<byte>, k: nat): (cmd: seq<byte>)
    requires |image| >= PATCH_HDR_SIZE && k < Count(image)
    ensures |cmd| == WMT_HDR_SIZE + |Chunk(image, k)|
  {
    Command(PATCH_DWNLD, Flag(k, Count(image)), Chunk(image, k))
  }

  // The first k commands of a download.
  function Commands(image: seq<byte>, k: nat): (cmds: seq<seq<byte>>)
    requires |image| >= PATCH_HDR_SIZE && k <= Count(image)
    ensures |cmds| == k
    ensures forall i :: 0 <= i < k ==> cmds[i] == ChunkCommand(image, i)
    ensures forall cmd <- cmds :: |cmd| > WMT_HDR_SIZE
  {
    if k == 0 then [] else Commands(image, k - 1) + [ChunkCommand(image, k - 1)]
  }

  /* ---- What a download does ---- */

  // The result and the marks of the command for chunk k in a download whose first command is the given call.
  function ChunkOutcome(image: seq<byte>, k: nat, env: nat -> Env, call: nat): int
    requires |image| >= PATCH_HDR_SIZE && k < Count(image)
  {
    Outcome(|Chunk(image, k)|, env(call + k))
  }

  function ChunkExchange(image: seq<byte>, k: nat, env: nat -> Env, call: nat): seq<Mark>
    requires |image| >= PATCH_HDR_SIZE && k < Count(image)
  {
    Exchange(|Chunk(image, k)|, ChunkCommand(image, k), env(call + k))
  }

  // The marks of each command of a download, by chunk, and of the first n together.
  function ExchangeAt(image: seq<byte>, env: nat -> Env, call: nat): nat -> seq<Mark> {
    (k: nat) => if |image| >= PATCH_HDR_SIZE && k < Count(image) then ChunkExchange(image, k, env, call) else []
  }

  function Series(xs: nat -> seq<Mark>, n: nat): seq<Mark> {
    if n == 0 then [] else Series(xs, n - 1) + xs(n - 1)
  }

  function Exchanges(image: seq<byte>, n: nat, env: nat -> Env, call: nat): seq<Mark> {
    Series(ExchangeAt(image, env, call), n)
  }

  ghost predicate FirstSucceed(image: seq<byte>, n: nat, env: nat -> Env, call: nat)
    requires |image| >= PATCH_HDR_SIZE && n <= Count(image)
  {
    forall k :: 0 <= k < n ==> ChunkOutcome(image, k, env, call) == 0
  }

  /** Chunks 0 to n - 1 have succeeded, and n is either the end or the first chunk that fails. */
  ghost predicate StopsAt(image: seq<byte>, n: nat, env: nat -> Env, call: nat)
    requires |image| >= PATCH_HDR_SIZE
  {
    && n <= Count(image)
    && FirstSucceed(image, n, env, call)
    && (n < Count(image) ==> ChunkOutcome(image, n, env, call) != 0)
  }

  datatype Image = Missing(err: int) | Loaded(data: seq<byte>)

  class Loader {
    const link: Link

    constructor (link: Link)
      ensures this.link == link
    {
      this.link := link;
    }

    /**
      Sends the image chunk by chunk and stops at the first failure.  With n commands successful, either
      those were all, or one more exchange has taken place and its error is the result.
     */
    method SetupFw(fw: Image) returns (err: int, ghost n: nat)
      requires fw.Missing? ==> fw.err < 0
      requires fw.Loaded? ==> |fw.data| < 0x8000_0000
      requires !link.waiting
      modifies link`waiting, link`calls, link`upward, link`log
      ensures !link.waiting
      ensures fw.Missing? ==> err == fw.err && n == 0 && link.log == old(link.log)
      ensures fw.Loaded? && |fw.data| < 30 ==> err == -22 && n == 0 && link.log == old(link.log)
      ensures old(link.log) <= link.log
      ensures fw.Loaded? && |fw.data| > 30 && err == 0 ==>
                forall a: Assembler :: a.Assembler? && (|fw.data| > 280 || a.partial == []) ==>
                  TakeAll(a, SentCommands(link.log[|old(link.log)|..])) == Assembler([], a.images + [fw.data[30..]])
      ensures fw.Loaded? && |fw.data| >= PATCH_HDR_SIZE ==> (
        && StopsAt(fw.data, n, link.env, old(link.calls))
        && (n == Count(fw.data) ==>
            err == 0 && link.log == old(link.log) + Exchanges(fw.data, n, link.env, old(link.calls)))
        && (n < Count(fw.data) ==>
            && err == ChunkOutcome(fw.data, n, link.env, old(link.calls)) && err < 0
            && link.log == old(link.log) + Exchanges(fw.data, n + 1, link.env, old(link.calls))))
    {
      if fw.Missing? {
        return fw.err, 0;
      }
      if |fw.data| < PATCH_HDR_SIZE {
        return -EINVAL, 0;
      }
      err, n := Download(fw.data);
    }

    // The first n commands, from the given call on, have been made and have succeeded; log is what was before.
    ghost predicate Progress(data: seq<byte>, n: nat, call: nat, log: seq<Mark>)
      requires |data| >= PATCH_HDR_SIZE
      reads link
    {
      && n <= Count(data) && FirstSucceed(data, n, link.env, call)
      && !link.waiting && link.calls == call + n
      && link.log == log + Exchanges(data, n, link.env, call)
    }

    method Download(data: seq<byte>) returns (err: int, ghost n: nat)
      requires PATCH_HDR_SIZE <= |data| < 0x8000_0000
      requires !link.waiting
      modifies link`waiting, link`calls, link`upward, link`log
      ensures !link.waiting
      ensures StopsAt(data, n, link.env, old(link.calls))
      ensures n == Count(data) ==>
                err == 0 && link.log == old(link.log) + Exchanges(data, n, link.env, old(link.calls))
      ensures n < Count(data) ==> (
        && err == ChunkOutcome(data, n, link.env, old(link.calls)) && err < 0
        && link.log == old(link.log) + Exchanges(data, n + 1, link.env, old(link.calls)))
      ensures old(link.log) <= link.log
      ensures |data| > 30 && err == 0 ==>
                forall a: Assembler :: a.Assembler? && (|data| > 280 || a.partial == []) ==>
                  TakeAll(a, SentCommands(link.log[|old(link.log)|..])) == Assembler([], a.images + [data[30..]])
    {
      hide Outcome, Exchange, TakeAll, SentCommands, Assembler.Take;
      var fwSize, fwPtr := |data| - PATCH_HDR_SIZE, PATCH_HDR_SIZE;
      var flag := FIRST;
      err, n := 0, 0;
      ghost var call, log := link.calls, link.log;
      while fwSize > 0
        invariant 0 <= fwSize && fwPtr + fwSize == |data|
        invariant n == 0 ==> flag == FIRST
        invariant err == 0 && Progress(data, n, call, log)
        invariant fwPtr == if n < Count(data) then PATCH_HDR_SIZE + CHUNK * n else |data|
        decreases fwSize
      {
        var dlen := if fwSize < CHUNK then fwSize else CHUNK;
        if fwSize - dlen == 0 {
          flag := LAST;
        } else if fwSize < |data| - PATCH_HDR_SIZE {
          flag := MIDDLE;
        }
        PositionOfChunk(data, n, fwPtr, fwSize);
        err := SendChunk(data, n, call, log, flag, data[fwPtr..fwPtr + dlen]);
        if err < 0 {
          return;
        }
        fwSize := fwSize - dlen;
        fwPtr := fwPtr + dlen;
        n := n + 1;
      }
      assert link.log[|log|..] == Exchanges(data, n, link.env, call);
      Downloaded(data, link.env, call);
    }

    // One command, seen as the n-th of a download.
    method SendChunk(ghost data: seq<byte>, ghost n: nat, ghost call: nat, ghost log: seq<Mark>,
                     flag: byte, chunk: seq<byte>)
      returns (err: int)
      requires |data| >= PATCH_HDR_SIZE && n < Count(data) && Progress(data, n, call, log)
      requires chunk == Chunk(data, n) && flag == Flag(n, Count(data))
      modifies link`waiting, link`calls, link`upward, link`log
      ensures !link.waiting
      ensures err == ChunkOutcome(data, n, link.env, call) && err <= 0
      ensures link.log == log + Exchanges(data, n + 1, link.env, call)
      ensures err == 0 ==> Progress(data, n + 1, call, log)
    {
      hide Exchange;
      err := link.WmtSync(PATCH_DWNLD, flag, chunk);
      LogSnoc(log, data, n, link.env, call);
      if err == 0 {
        OneMoreSucceeds(data, n, link.env, call);
      }
    }
  }

  lemma {:induction false} PositionOfChunk(image: seq<byte>, k: nat, fwPtr: nat, fwSize: nat)
    requires |image| >= PATCH_HDR_SIZE && k <= Count(image) && 0 < fwSize && fwPtr + fwSize == |image|
    requires fwPtr == if k < Count(image) then PATCH_HDR_SIZE + CHUNK * k else |image|
    ensures k < Count(image)
    ensures k + 1 == Count(image) <==> fwSize <= CHUNK
    ensures k == 0 <==> fwSize == |image| - PATCH_HDR_SIZE
    ensures |Chunk(image, k)| == if fwSize < CHUNK then fwSize else CHUNK
    ensures Chunk(image, k) == image[fwPtr..fwPtr + |Chunk(image, k)|]
  {
  }

  lemma {:induction false} LogSnoc(log: seq<Mark>, image: seq<byte>, n: nat, env: nat -> Env, call: nat)
    requires |image| >= PATCH_HDR_SIZE && n < Count(image)
    ensures log + Exchanges(image, n, env, call) + ExchangeAt(image, env, call)(n) ==
            log + Exchanges(image, n + 1, env, call)
  {
    Regroup(log, Exchanges(image, n, env, call), ExchangeAt(image, env, call)(n), []);
  }

  lemma {:induction false} OneMoreSucceeds(image: seq<byte>, n: nat, env: nat -> Env, call: nat)
    requires |image| >= PATCH_HDR_SIZE && n < Count(image)
    requires FirstSucceed(image, n, env, call) && ChunkOutcome(image, n, env, call) == 0
    ensures FirstSucceed(image, n + 1, env, call)
  {
  }

  /* ---- What the link and the device see ---- */

  // The commands in a log, in the order sent.
  function SentCommands(log: seq<Mark>): seq<seq<byte>> {
    if log == [] then [] else (if log[0].Sent? then [log[0].cmd] else []) + SentCommands(log[1..])
  }

  lemma {:induction false} SentJoin(a: seq<Mark>, b: seq<Mark>)
    ensures SentCommands(a + b) == SentCommands(a) + SentCommands(b)
  {
    if a == [] {
      assert a + b == b;
    } else {
      assert (a + b)[1..] == a[1..] + b;
      SentJoin(a[1..], b);
    }
  }

  lemma {:induction false} HandledSendsNothing(evts: seq<byte>, bit: bool)
    ensures SentCommands(Handled(evts, bit).0) == []
  {
    if evts != [] {
      var code := if evts[0] == EV_VENDOR_RAW then EV_VENDOR else evts[0];
      HandledSendsNothing(evts[1..], bit && !(bit && code == EV_VENDOR));
    }
  }

  // One command puts itself on the link, or nothing when sending fails.
  lemma {:induction false} ExchangeSends(plen: nat, cmd: seq<byte>, env: Env)
    requires WMT_HDR_SIZE + plen <= 255
    ensures SentCommands(Exchange(plen, cmd, env)) == if env.sendErr < 0 then [] else [cmd]
  {
    var bit := Handled(env.early, true).1;
    var (marks, left) := Handled(env.ready, bit);
    HandledSendsNothing(env.before, false);
    HandledSendsNothing(env.early, true);
    HandledSendsNothing(env.ready, bit);
    FailingSendsNothing(env, bit, env.sendErr);
    WaitingSendsNothing(plen, env, left);
    SentJoin(Handled(env.before, false).0, [Armed]);
    SentJoin(Handled(env.before, false).0 + [Armed], Handled(env.early, true).0);
    SentJoin([Sent(cmd)], marks);
    SentJoin([Sent(cmd)] + marks, Waiting(plen, env, left));
    SentJoin(Opening(env), Closing(plen, cmd, env));
  }

  lemma {:induction false} FailingSendsNothing(env: Env, bit: bool, err: int)
    ensures SentCommands(Failing(env, bit, err)) == []
  {
    HandledSendsNothing(env.late, bit);
    SentJoin(Handled(env.late, bit).0, [Returned(err)]);
  }

  lemma {:induction false} WaitingSendsNothing(plen: nat, env: Env, bit: bool)
    ensures SentCommands(Waiting(plen, env, bit)) == []
  {
    var err := Outcome(plen, env);
    var (marks, left) := Handled(env.during, true);
    HandledSendsNothing(env.during, true);
    FailingSendsNothing(env, left, err);
    SentJoin(marks, if err == 0 then [Returned(0)] else Failing(env, left, err));
  }

  // A command has been sent, once, and the bit cleared, once.
  ghost predicate Answered(x: seq<Mark>, cmd: seq<byte>) {
    OneOutstanding(x) && Sends(x) == 1 && Hits(x) == 1 && SentCommands(x) == [cmd]
  }

  ghost predicate Disciplined(log: seq<Mark>, cmds: seq<seq<byte>>) {
    OneOutstanding(log) && Sends(log) == |cmds| && Hits(log) == |cmds| && SentCommands(log) == cmds
  }

  lemma {:induction false} AppendMarks(log: seq<Mark>, x: seq<Mark>)
    requires OneOutstanding(log) && OneOutstanding(x) && Sends(log) == Hits(log)
    ensures OneOutstanding(log + x)
    ensures Sends(log + x) == Sends(log) + Sends(x) && Hits(log + x) == Hits(log) + Hits(x)
    ensures SentCommands(log + x) == SentCommands(log) + SentCommands(x)
  {
    OneOutstandingJoin(log, x);
    CountJoin(log, x);
    SentJoin(log, x);
  }

  lemma {:induction false} SeriesDisciplined(xs: nat -> seq<Mark>, cmds: seq<seq<byte>>)
    requires forall k :: 0 <= k < |cmds| ==> Answered(xs(k), cmds[k])
    ensures Disciplined(Series(xs, |cmds|), cmds)
    decreases |cmds|
  {
    if cmds != [] {
      var n := |cmds| - 1;
      SeriesDisciplined(xs, cmds[..n]);
      AppendMarks(Series(xs, n), xs(n));
      assert cmds == cmds[..n] + [cmds[n]];
    }
  }

  // The command for chunk k, seen on the link.
  lemma {:induction false} ChunkFacts(image: seq<byte>, k: nat, env: nat -> Env, call: nat)
    requires |image| >= PATCH_HDR_SIZE && k < Count(image)
    ensures var x := ExchangeAt(image, env, call)(k);
            && OneOutstanding(x) && Hits(x) <= 1
            && SentCommands(x) == (if env(call + k).sendErr < 0 then [] else [ChunkCommand(image, k)])
            && (ChunkOutcome(image, k, env, call) == 0 ==> Answered(x, ChunkCommand(image, k)))
  {
    ExchangeCounts(|Chunk(image, k)|, ChunkCommand(image, k), env(call + k));
    ExchangeSends(|Chunk(image, k)|, ChunkCommand(image, k), env(call + k));
  }

  /** The successful commands are the first chunks' commands, in order, with one event that clears the bit for each. */
  lemma {:induction false} FirstDisciplined(image: seq<byte>, n: nat, env: nat -> Env, call: nat)
    requires |image| >= PATCH_HDR_SIZE && n <= Count(image) && FirstSucceed(image, n, env, call)
    ensures Disciplined(Exchanges(image, n, env, call), Commands(image, n))
  {
    var xs, cmds := ExchangeAt(image, env, call), Commands(image, n);
    forall k | 0 <= k < n ensures Answered(xs(k), cmds[k]) {
      assert ChunkOutcome(image, k, env, call) == 0;
      ChunkFacts(image, k, env, call);
    }
    SeriesDisciplined(xs, cmds);
  }

  /**
    A whole download that stops after n successes: never more than one command outstanding, and a failing
    command adds at most itself.  The command size limit is never the reason for a failure.
   */
  lemma {:induction false} DownloadDiscipline(image: seq<byte>, n: nat, env: nat -> Env, call: nat)
    requires |image| >= PATCH_HDR_SIZE && StopsAt(image, n, env, call)
    ensures n == Count(image) ==> Disciplined(Exchanges(image, n, env, call), Commands(image, n))
    ensures n < Count(image) ==>
              var log := Exchanges(image, n + 1, env, call);
              && OneOutstanding(log)
              && n <= Hits(log) <= n + 1
              && SentCommands(log) == Commands(image, if env(call + n).sendErr < 0 then n else n + 1)
              && WMT_HDR_SIZE + |Chunk(image, n)| <= 255
  {
    FirstDisciplined(image, n, env, call);
    if n < Count(image) {
      ChunkFacts(image, n, env, call);
      AppendMarks(Exchanges(image, n, env, call), ExchangeAt(image, env, call)(n));
    }
  }

  lemma {:induction false} SeriesInStep(xs: nat -> seq<Mark>, n: nat)
    requires forall k :: 0 <= k < n ==> Sends(xs(k)) == Hits(xs(k))
    ensures Sends(Series(xs, n)) == Hits(Series(xs, n))
    ensures InStep(Series(xs, n)) <==> forall k :: 0 <= k < n ==> InStep(xs(k))
    decreases n
  {
    if n == 0 {
      NothingCounted([]);
    } else {
      SeriesInStep(xs, n - 1);
      CountJoin(Series(xs, n - 1), xs(n - 1));
      InStepJoin(Series(xs, n - 1), xs(n - 1));
    }
  }

  predicate PunctualAt(env: nat -> Env, call: nat, k: nat) {
    Punctual(env(call + k))
  }

  ghost predicate AllPunctual(env: nat -> Env, call: nat, n: nat) {
    forall k :: 0 <= k < n ==> PunctualAt(env, call, k)
  }

  lemma {:induction false} ChunkInStep(image: seq<byte>, k: nat, env: nat -> Env, call: nat)
    requires |image| >= PATCH_HDR_SIZE && k < Count(image)
    ensures InStep(ExchangeAt(image, env, call)(k)) <==> PunctualAt(env, call, k)
  {
    InStepIff(|Chunk(image, k)|, ChunkCommand(image, k), env(call + k));
  }

  lemma {:induction false} FirstInStepIff(image: seq<byte>, n: nat, env: nat -> Env, call: nat)
    requires |image| >= PATCH_HDR_SIZE && n <= Count(image) && FirstSucceed(image, n, env, call)
    ensures InStep(Exchanges(image, n, env, call)) <==> AllPunctual(env, call, n)
  {
    hide ChunkExchange, ChunkOutcome, Punctual;
    var xs := ExchangeAt(image, env, call);
    forall k | 0 <= k < n
      ensures Sends(xs(k)) == Hits(xs(k)) && (InStep(xs(k)) <==> PunctualAt(env, call, k))
    {
      assert ChunkOutcome(image, k, env, call) == 0;
      ChunkFacts(image, k, env, call);
      ChunkInStep(image, k, env, call);
    }
    SeriesInStep(xs, n);
  }

  /**
    Exactly when every command of a download is answered, if at all, after it is sent and before the next
    one: when no event clears the bit before its command for any of them, the failing one included.
   */
  lemma {:induction false} DownloadInStepIff(image: seq<byte>, n: nat, env: nat -> Env, call: nat)
    requires |image| >= PATCH_HDR_SIZE && StopsAt(image, n, env, call)
    ensures var made := if n == Count(image) then n else n + 1;
            InStep(Exchanges(image, made, env, call)) <==> AllPunctual(env, call, made)
  {
    hide ChunkExchange, ChunkOutcome, Punctual;
    FirstInStepIff(image, n, env, call);
    if n < Count(image) {
      FirstDisciplined(image, n, env, call);
      ChunkInStep(image, n, env, call);
      InStepJoin(Exchanges(image, n, env, call), ExchangeAt(image, env, call)(n));
      assert AllPunctual(env, call, n + 1) <==> AllPunctual(env, call, n) && PunctualAt(env, call, n);
    }
  }

  /* ---- Putting the image together again ---- */

  /**
    A device that looks at every byte of a command's header: direction 1, operation 1, the length that is
    there, and a flag.  Flag 1 starts afresh, 2 adds, 3 adds and completes; anything else breaks it for good.
   */
  datatype Assembler = Broken | Assembler(partial: seq<byte>, images: seq<seq<byte>>) {
    function Take(cmd: seq<byte>): Assembler {
      if Broken? || |cmd| < 5 || cmd[0] != 1 || cmd[1] != 1 then Broken
      else if cmd[2] as int + 256 * cmd[3] as int != |cmd| - 4 then Broken
      else if cmd[4] == 1 then Assembler(cmd[5..], images)
      else if cmd[4] == 2 then Assembler(partial + cmd[5..], images)
      else if cmd[4] == 3 then Assembler([], images + [partial + cmd[5..]])
      else Broken
    }
  }

  function TakeAll(a: Assembler, cmds: seq<seq<byte>>): Assembler
    decreases |cmds|
  {
    if cmds == [] then a else TakeAll(a, cmds[..|cmds| - 1]).Take(cmds[|cmds| - 1])
  }

  lemma {:induction false} TakeChunk(a: Assembler, image: seq<byte>, k: nat)
    requires |image| >= PATCH_HDR_SIZE && k < Count(image) && a.Assembler?
    ensures var from := PATCH_HDR_SIZE + CHUNK * k;
            a.Take(ChunkCommand(image, k)) ==
            if k + 1 == Count(image) then Assembler([], a.images + [a.partial + image[from..]])
            else
              Assembler(if k == 0 then image[from..from + CHUNK] else a.partial + image[from..from + CHUNK], a.images)
  {
    CommandDecodes(PATCH_DWNLD, Flag(k, Count(image)), Chunk(image, k));
    var from := PATCH_HDR_SIZE + CHUNK * k;
    assert k + 1 == Count(image) ==> Chunk(image, k) == image[from..];
  }

  // What the first k chunks amount to, flags aside.
  function Held(a: Assembler, image: seq<byte>, k: nat): (b: Assembler)
    requires |image| >= PATCH_HDR_SIZE && k <= Count(image) && a.Assembler?
    ensures b.Assembler?
  {
    if k == 0 then a
    else if k < Count(image) then Assembler(image[30..30 + 250 * k], a.images)
    else
      var whole := image[30..];
      Assembler([], a.images + [if k == 1 then a.partial + whole else whole])
  }

  lemma {:induction false} HeldStep(a: Assembler, image: seq<byte>, k: nat)
    requires |image| >= PATCH_HDR_SIZE && k < Count(image) && a.Assembler?
    ensures Held(a, image, k).Take(ChunkCommand(image, k)) == Held(a, image, k + 1)
  {
    hide Assembler.Take, ChunkCommand, Chunk;
    TakeChunk(Held(a, image, k), image, k);
    var from := PATCH_HDR_SIZE + CHUNK * k;
    GlueChunks(image, from, if k + 1 < Count(image) then from + CHUNK else |image|);
  }

  lemma {:induction false} GlueChunks(image: seq<byte>, from: nat, to: nat)
    requires PATCH_HDR_SIZE <= from <= to <= |image|
    ensures image[PATCH_HDR_SIZE..from] + image[from..to] == image[PATCH_HDR_SIZE..to]
    ensures image[PATCH_HDR_SIZE..from] + image[from..] == image[PATCH_HDR_SIZE..]
  {
  }

  lemma {:induction false} TakeSnoc(a: Assembler, cmds: seq<seq<byte>>, cmd: seq<byte>)
    ensures TakeAll(a, cmds + [cmd]) == TakeAll(a, cmds).Take(cmd)
  {
    assert (cmds + [cmd])[..|cmds|] == cmds;
  }

  /** After k chunks the device holds that much of the image, and after the last one it is complete. */
  lemma {:induction false} TakesChunks(a: Assembler, image: seq<byte>, k: nat)
    requires |image| >= PATCH_HDR_SIZE && k <= Count(image) && a.Assembler?
    ensures TakeAll(a, Commands(image, k)) == Held(a, image, k)
    decreases k
  {
    hide Held, Count, Chunk, ChunkCommand, Assembler.Take, TakeAll;
    if k > 0 {
      TakesChunks(a, image, k - 1);
      TakeSnoc(a, Commands(image, k - 1), ChunkCommand(image, k - 1));
      HeldStep(a, image, k - 1);
    } else {
      TakesNone(a, image);
    }
  }

  lemma {:induction false} TakesNone(a: Assembler, image: seq<byte>)
    requires |image| >= PATCH_HDR_SIZE && a.Assembler?
    ensures TakeAll(a, Commands(image, 0)) == Held(a, image, 0)
  {
  }

  /**
    A complete download makes the device complete exactly one more image, the right one, except that a
    one-chunk download, which carries no FIRST flag, needs a device with nothing half done; an image without
    content completes nothing.
   */
  lemma {:induction false} ReassembledIff(a: Assembler, image: seq<byte>)
    requires |image| >= 30 && a.Assembler?
    ensures TakeAll(a, Commands(image, Count(image))) == Assembler([], a.images + [image[30..]])
            <==> |image| > 280 || (|image| > 30 && a.partial == [])
  {
    var whole := image[30..];
    TakesChunks(a, image, Count(image));
    if whole == [] {
      assert |a.images + [whole]| == |a.images| + 1;
    } else {
      assert (a.images + [a.partial + whole])[|a.images|] == a.partial + whole;
      assert (a.images + [whole])[|a.images|] == whole;
      assert a.partial + whole == whole <==> a.partial == [] by {
        assert |a.partial + whole| == |a.partial| + |whole|;
      }
    }
  }

  /** The same said of the commands on the link, once all of them have succeeded. */
  lemma {:induction false} Downloaded(image: seq<byte>, env: nat -> Env, call: nat)
    requires |image| >= 30 && FirstSucceed(image, Count(image), env, call)
    ensures forall a: Assembler :: a.Assembler? ==> (
              TakeAll(a, SentCommands(Exchanges(image, Count(image), env, call)))
                == Assembler([], a.images + [image[30..]])
              <==> |image| > 280 || (|image| > 30 && a.partial == []))
  {
    hide TakeAll, Assembler.Take, SentCommands;
    FirstDisciplined(image, Count(image), env, call);
    forall a: Assembler | a.Assembler?
      ensures TakeAll(a, Commands(image, Count(image))) == Assembler([], a.images + [image[30..]])
              <==> |image| > 280 || (|image| > 30 && a.partial == [])
    {
      ReassembledIff(a, image);
    }
  }
}
