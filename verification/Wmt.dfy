/**
  WMT commands: one at a time, each answered by a vendor event that the receive path handles concurrently.
  The waiting bit ties the two together.
 */
module Wmt {
  import opened Bytes

  const PATCH_DWNLD: byte := 0x1

  const EV_VENDOR: byte := 0xff
  const EV_VENDOR_RAW: byte := 0xe4

  const EINTR := 4
  const EINVAL := 22
  const ETIMEDOUT := 110

  const WMT_HDR_SIZE := 5

  /** A command as handed to HCI: direction, operation, little-endian length, flag, parameters. */
  function Command(op: byte, flag: byte, param: seq<byte>): (cmd: seq<byte>) {
    [1, op, (|param| + 1) % 256, (|param| + 1) / 256 % 256, flag] + param
  }

  // What passes on the link, as far as waiting is concerned.
  datatype Mark = Armed | Sent(cmd: seq<byte>) | Event(code: byte, hit: bool) | Returned(err: int)

  /**
    What happens around one command: the events handled before the bit is set, between setting and sending,
    between sending and the first look at the bit, and while waiting; and, when sending or waiting fails,
    before the bit is cleared.  Also the result of sending, and what ends a wait that did not find the bit
    clear at once: 0 for the bit, otherwise a signal or the clock, perhaps just after the bit was cleared.
   */
  datatype Env = Env(before: seq<byte>, early: seq<byte>, sendErr: int, ready: seq<byte>, during: seq<byte>,
                     verdict: int, late: seq<byte>)

  predicate Vendor(evt: byte) {
    evt == EV_VENDOR || evt == EV_VENDOR_RAW
  }

  predicate AnyVendor(evts: seq<byte>) {
    evts != [] && (Vendor(evts[0]) || AnyVendor(evts[1..]))
  }

  /** The result of one command; an answer that is there before the wait cannot be lost to it. */
  function Outcome(plen: nat, env: Env): (err: int)
  {
    if WMT_HDR_SIZE + plen > 255 then -EINVAL
    else if env.sendErr < 0 then env.sendErr
    else if AnyVendor(env.early + env.ready) then 0
    else if env.verdict == -EINTR then -EINTR
    else if env.verdict == 0 && AnyVendor(env.during) then 0
    else -ETIMEDOUT
  }

  // What is recorded of handling events with the bit as given, and the bit afterwards.
  function Handled(evts: seq<byte>, bit: bool): (r: (seq<Mark>, bool)) {
    if evts == [] then ([], bit)
    else
      var code := if evts[0] == EV_VENDOR_RAW then EV_VENDOR else evts[0];
      var hit := bit && code == EV_VENDOR;
      var (marks, after) := Handled(evts[1..], bit && !hit);
      ([Event(code, hit)] + marks, after)
  }

  // The marks one command leaves behind, from setting the bit on and from sending on.
  function Exchange(plen: nat, cmd: seq<byte>, env: Env): seq<Mark> {
    if WMT_HDR_SIZE + plen > 255 then [Returned(Outcome(plen, env))]
    else Opening(env) + Closing(plen, cmd, env)
  }

  function Opening(env: Env): seq<Mark> {
    Handled(env.before, false).0 + [Armed] + Handled(env.early, true).0
  }

  function Closing(plen: nat, cmd: seq<byte>, env: Env): seq<Mark> {
    var bit := Handled(env.early, true).1;
    if env.sendErr < 0 then Failing(env, bit, env.sendErr)
    else [Sent(cmd)] + Handled(env.ready, bit).0 + Waiting(plen, env, Handled(env.ready, bit).1)
  }

  function Waiting(plen: nat, env: Env, bit: bool): seq<Mark> {
    if !bit then [Returned(0)]
    else
      var err := Outcome(plen, env);
      var (marks, left) := Handled(env.during, bit);
      marks + if err == 0 then [Returned(0)] else Failing(env, left, err)
  }

  function Failing(env: Env, bit: bool, err: int): seq<Mark> {
    Handled(env.late, bit).0 + [Returned(err)]
  }

  class Link {
    var waiting: bool
    var calls: nat
    const env: nat -> Env
    var upward: seq<byte>
    ghost var log: seq<Mark>

    constructor (env: nat -> Env)
      ensures this.env == env && !waiting && calls == 0 && upward == [] && log == []
    {
      this.env := env;
      waiting, calls, upward, log := false, 0, [], [];
    }

    /** The event handler: the raw vendor code is rewritten before the event goes up, then the bit is cleared. */
    method RecvEvent(evt: byte)
      modifies this`waiting, this`upward, this`log
      ensures waiting == (old(waiting) && evt != 0xff && evt != 0xe4)
      ensures upward == old(upward) + [if evt == 0xe4 then 0xff else evt]
      ensures log == old(log) + Handled([evt], old(waiting)).0 && waiting == Handled([evt], old(waiting)).1
    {
      var code := evt;
      if code == EV_VENDOR_RAW { code := EV_VENDOR; }
      upward := upward + [code];
      log := log + [Event(code, waiting && code == EV_VENDOR)];
      if code == EV_VENDOR { waiting := false; }
      assert Handled([evt], old(waiting)) == ([Event(code, old(waiting) && code == EV_VENDOR)] + [], waiting);
    }

    method RecvEvents(evts: seq<byte>)
      modifies this`waiting, this`upward, this`log
      ensures log == old(log) + Handled(evts, old(waiting)).0 && waiting == Handled(evts, old(waiting)).1
    {
      var i := 0;
      while i < |evts|
        invariant 0 <= i <= |evts|
        invariant log == old(log) + Handled(evts[..i], old(waiting)).0
        invariant waiting == Handled(evts[..i], old(waiting)).1
      {
        HandledJoin(evts[..i], [evts[i]], old(waiting));
        assert evts[..i + 1] == evts[..i] + [evts[i]];
        RecvEvent(evts[i]);
        i := i + 1;
      }
      assert evts[..i] == evts;
    }

    /**
      Sends one command and waits for its answer.  The bit is clear on return, on every path; the marks left
      behind are those of Exchange.  The error tells a command that is too long, one that was not sent, a wait
      that a signal ended, and one that ended otherwise with the bit still set.
     */
    method WmtSync(op: byte, flag: byte, param: seq<byte>) returns (err: int)
      requires !waiting && |param| < 0x10000
      modifies this`waiting, this`calls, this`upward, this`log
      ensures !waiting && calls == old(calls) + 1
      ensures err == Outcome(|param|, env(old(calls)))
      ensures |param| > 250 ==> err == -22
      ensures |param| <= 250 && env(old(calls)).sendErr < 0 ==> err == env(old(calls)).sendErr
      ensures |param| <= 250 && env(old(calls)).sendErr >= 0 ==>
                var e := env(old(calls));
                var bit := Handled(e.ready, Handled(e.early, true).1).1;
                err == if bit && e.verdict == -4 then -4
                       else if bit && (e.verdict != 0 || Handled(e.during, true).1) then -110
                       else 0
      ensures log == old(log) + Exchange(|param|, Command(op, flag, param), env(old(calls)))
    {
      var e := env(calls);
      ErrorIs(|param|, e);
      calls := calls + 1;
      var hlen := WMT_HDR_SIZE + |param|;
      if hlen > 255 {
        log := log + [Returned(-EINVAL)];
        return -EINVAL;
      }
      var wc := [1, op] + LittleEndian16(|param| + 1) + [flag] + param;
      assert wc == Command(op, flag, param);

      Arm(e);
      err := e.sendErr;
      if err < 0 {
        GiveUp(e, err);
      } else {
        err := SendAndWait(e, wc);
      }
      Regroup(old(log), Opening(e), Closing(|param|, wc, e), []);
    }

    // Sets the bit; events may be handled just before and just after.
    method Arm(e: Env)
      requires !waiting
      modifies this`waiting, this`upward, this`log
      ensures waiting == Handled(e.early, true).1
      ensures log == old(log) + Opening(e)
    {
      RecvEvents(e.before);
      waiting := true;
      log := log + [Armed];
      RecvEvents(e.early);
    }

    // Clears the bit and returns an error; events may still be handled just before.
    method GiveUp(e: Env, err: int)
      modifies this`waiting, this`upward, this`log
      ensures !waiting
      ensures log == old(log) + Failing(e, old(waiting), err)
    {
      RecvEvents(e.late);
      waiting := false;
      log := log + [Returned(err)];
    }

    // The part from sending on.
    method SendAndWait(e: Env, wc: seq<byte>) returns (err: int)
      requires e.sendErr >= 0 && waiting == Handled(e.early, true).1
      modifies this`waiting, this`upward, this`log
      ensures !waiting && err == Outcome(0, e)
      ensures log == old(log) + Closing(0, wc, e)
    {
      ghost var bit := waiting;
      log := log + [Sent(wc)];
      RecvEvents(e.ready);
      FirstLook(e);
      ghost var left := waiting;
      err := Wait(e);
      Regroup(old(log), [Sent(wc)], Handled(e.ready, bit).0, Waiting(0, e, left));
    }

    // Waits for the bit to be clear: at once if it is, otherwise until an event, a signal or the clock.
    method Wait(e: Env) returns (err: int)
      requires e.sendErr >= 0 && waiting == !AnyVendor(e.early + e.ready)
      modifies this`waiting, this`upward, this`log
      ensures !waiting && err == Outcome(0, e)
      ensures log == old(log) + Waiting(0, e, old(waiting))
    {
      if !waiting {
        log := log + [Returned(0)];
        return 0;
      }
      RecvEvents(e.during);
      HandledBit(e.during, true);
      ghost var marks, left := Handled(e.during, true).0, waiting;
      err := if e.verdict == 0 && waiting then -ETIMEDOUT else e.verdict;
      if err != 0 {
        if err != -EINTR {
          err := -ETIMEDOUT;
        }
        GiveUp(e, err);
        Regroup(old(log), marks, Failing(e, left, err), []);
      } else {
        log := log + [Returned(0)];
        Regroup(old(log), marks, [Returned(0)], []);
      }
    }
  }

  lemma {:induction false} FirstLook(e: Env)
    ensures Handled(e.ready, Handled(e.early, true).1).1 == !AnyVendor(e.early + e.ready)
  {
    HandledBit(e.early, true);
    HandledBit(e.ready, Handled(e.early, true).1);
    AnyVendorJoin(e.early, e.ready);
  }

  function LittleEndian16(n: nat): seq<byte>
    requires n < 0x10000
  {
    [n % 256, n / 256]
  }

  lemma {:induction false} HandledJoin(a: seq<byte>, b: seq<byte>, bit: bool)
    ensures var (ma, mid) := Handled(a, bit);
            var (mb, end) := Handled(b, mid);
            Handled(a + b, bit) == (ma + mb, end)
  {
    if a == [] {
      assert a + b == b;
      assert [] + Handled(b, bit).0 == Handled(b, bit).0;
    } else {
      assert (a + b)[1..] == a[1..] + b;
      var code := if a[0] == EV_VENDOR_RAW then EV_VENDOR else a[0];
      var hit := bit && code == EV_VENDOR;
      HandledJoin(a[1..], b, bit && !hit);
      assert (a + b)[0] == a[0];
      Regroup([Event(code, hit)], Handled(a[1..], bit && !hit).0, Handled(b, Handled(a, bit).1).0, []);
    }
  }

  lemma {:induction false} AnyVendorJoin(a: seq<byte>, b: seq<byte>)
    ensures AnyVendor(a + b) <==> AnyVendor(a) || AnyVendor(b)
  {
    if a == [] {
      assert a + b == b;
    } else {
      assert (a + b)[1..] == a[1..] + b;
      AnyVendorJoin(a[1..], b);
    }
  }

  /** The bit survives exactly the lists without a vendor event, and exactly one event can take it. */
  lemma {:induction false} HandledBit(evts: seq<byte>, bit: bool)
    ensures Handled(evts, bit).1 == (bit && !AnyVendor(evts))
    ensures Hits(Handled(evts, bit).0) == (if bit && AnyVendor(evts) then 1 else 0)
    ensures Sends(Handled(evts, bit).0) == 0
  {
    if evts == [] {
    } else {
      var code := if evts[0] == EV_VENDOR_RAW then EV_VENDOR else evts[0];
      var hit := bit && code == EV_VENDOR;
      HandledBit(evts[1..], bit && !hit);
    }
  }

  /* ---- Counting ---- */

  function Sends(log: seq<Mark>): nat {
    if log == [] then 0 else (if log[0].Sent? then 1 else 0) + Sends(log[1..])
  }

  function Hits(log: seq<Mark>): nat {
    if log == [] then 0 else (if log[0].Event? && log[0].hit then 1 else 0) + Hits(log[1..])
  }

  lemma {:induction false} CountJoin(a: seq<Mark>, b: seq<Mark>)
    ensures Sends(a + b) == Sends(a) + Sends(b) && Hits(a + b) == Hits(a) + Hits(b)
  {
    if a == [] {
      assert a + b == b;
    } else {
      assert (a + b)[1..] == a[1..] + b;
      CountJoin(a[1..], b);
    }
  }

  /** At every moment at most one more command has been sent than events have cleared the bit. */
  ghost predicate OneOutstanding(log: seq<Mark>) {
    forall n :: 0 <= n <= |log| ==> Sends(log[..n]) <= Hits(log[..n]) + 1
  }

  lemma {:induction false} OneOutstandingJoin(a: seq<Mark>, b: seq<Mark>)
    requires OneOutstanding(a) && OneOutstanding(b) && Sends(a) <= Hits(a)
    ensures OneOutstanding(a + b)
  {
    forall n | 0 <= n <= |a + b| ensures Sends((a + b)[..n]) <= Hits((a + b)[..n]) + 1 {
      if n <= |a| {
        assert (a + b)[..n] == a[..n];
      } else {
        assert (a + b)[..n] == a + b[..n - |a|];
        CountJoin(a, b[..n - |a|]);
      }
    }
  }

  lemma {:induction false} FewSends(log: seq<Mark>, n: nat)
    requires n <= |log|
    ensures Sends(log[..n]) <= Sends(log)
  {
    assert log == log[..n] + log[n..];
    CountJoin(log[..n], log[n..]);
  }

  lemma {:induction false} OpeningCounts(env: Env)
    ensures Sends(Opening(env)) == 0 && Hits(Opening(env)) == if Handled(env.early, true).1 then 0 else 1
  {
    var m0, m1 := Handled(env.before, false).0, Handled(env.early, true).0;
    HandledBit(env.before, false);
    HandledBit(env.early, true);
    CountJoin(m0, [Armed]);
    CountJoin(m0 + [Armed], m1);
  }

  lemma {:induction false} FailingCounts(env: Env, bit: bool, err: int)
    ensures Sends(Failing(env, bit, err)) == 0
    ensures Hits(Failing(env, bit, err)) == if bit && AnyVendor(env.late) then 1 else 0
  {
    HandledBit(env.late, bit);
    CountJoin(Handled(env.late, bit).0, [Returned(err)]);
  }

  lemma {:induction false} WaitingCounts(plen: nat, env: Env, bit: bool)
    ensures Sends(Waiting(plen, env, bit)) == 0
    ensures Hits(Waiting(plen, env, bit)) <= (if bit then 1 else 0)
    ensures bit && Outcome(plen, env) == 0 ==> Hits(Waiting(plen, env, bit)) == if AnyVendor(env.during) then 1 else 0
  {
    var err := Outcome(plen, env);
    var (marks, left) := Handled(env.during, true);
    HandledBit(env.during, true);
    FailingCounts(env, left, err);
    CountJoin(marks, if err == 0 then [Returned(0)] else Failing(env, left, err));
  }

  lemma {:induction false} ClosingCounts(plen: nat, cmd: seq<byte>, env: Env)
    ensures Sends(Closing(plen, cmd, env)) == if env.sendErr >= 0 then 1 else 0
    ensures var bit := Handled(env.early, true).1;
            && Hits(Closing(plen, cmd, env)) <= (if bit then 1 else 0)
            && (Outcome(plen, env) == 0 ==> Hits(Closing(plen, cmd, env)) == if bit then 1 else 0)
  {
    var bit := Handled(env.early, true).1;
    var (marks, left) := Handled(env.ready, bit);
    HandledBit(env.early, true);
    HandledBit(env.ready, bit);
    FirstLook(env);
    FailingCounts(env, bit, env.sendErr);
    WaitingCounts(plen, env, left);
    CountJoin([Sent(cmd)], marks);
    CountJoin([Sent(cmd)] + marks, Waiting(plen, env, left));
  }

  /** One command sends at most once; when it succeeds it has been sent once and answered once. */
  lemma {:induction false} ExchangeCounts(plen: nat, cmd: seq<byte>, env: Env)
    ensures var log := Exchange(plen, cmd, env);
            && Sends(log) == (if plen <= 250 && env.sendErr >= 0 then 1 else 0)
            && Hits(log) <= 1
            && (Outcome(plen, env) == 0 ==> Hits(log) == 1)
            && OneOutstanding(log)
  {
    var log := Exchange(plen, cmd, env);
    if WMT_HDR_SIZE + plen <= 255 {
      OpeningCounts(env);
      ClosingCounts(plen, cmd, env);
      CountJoin(Opening(env), Closing(plen, cmd, env));
    }
    forall n | 0 <= n <= |log| ensures Sends(log[..n]) <= Hits(log[..n]) + 1 {
      FewSends(log, n);
    }
  }

  /**
    Exactly when a command succeeds: it fits, it is sent, and either the bit is clear at the first look,
    whatever happens then, or it is clear after waiting and the wait has not been cut short.  An event that
    came before the command was even sent counts.
   */
  lemma {:induction false} SuccessIff(plen: nat, env: Env)
    ensures var atFirstLook := Handled(env.ready, Handled(env.early, true).1).1;
            Outcome(plen, env) == 0 <==>
            && plen <= 250 && env.sendErr >= 0
            && (!atFirstLook || (env.verdict == 0 && !Handled(env.during, atFirstLook).1))
  {
    FirstLook(env);
    HandledBit(env.during, true);
  }

  /**
    Which error a command returns: that it is too long, that of sending, that a signal ended the wait, or that
    the wait ended otherwise with the bit still set, or with a failure of its own.
   */
  lemma {:induction false} ErrorIs(plen: nat, env: Env)
    ensures plen > 250 ==> Outcome(plen, env) == -22
    ensures plen <= 250 && env.sendErr < 0 ==> Outcome(plen, env) == env.sendErr
    ensures plen <= 250 && env.sendErr >= 0 ==>
              var bit := Handled(env.ready, Handled(env.early, true).1).1;
              Outcome(plen, env) ==
                if bit && env.verdict == -4 then -4
                else if bit && (env.verdict != 0 || Handled(env.during, true).1) then -110
                else 0
  {
    FirstLook(env);
    HandledBit(env.during, true);
  }

  /** The bit is set before the command goes out, and the last thing to happen is the return of the result. */
  lemma {:induction false} ArmedBeforeSent(plen: nat, cmd: seq<byte>, env: Env)
    ensures var log := Exchange(plen, cmd, env);
            && log != [] && log[|log| - 1] == Returned(Outcome(plen, env))
            && (plen <= 250 && env.sendErr >= 0 ==>
                  exists i, j :: 0 <= i < j < |log| && log[i] == Armed && log[j] == Sent(cmd))
  {
    var log := Exchange(plen, cmd, env);
    if plen <= 250 {
      var o, c, i := Opening(env), Closing(plen, cmd, env), |Handled(env.before, false).0|;
      ClosingReturns(plen, cmd, env);
      assert log[|log| - 1] == c[|c| - 1];
      assert log[i] == o[i] == Armed;
      if env.sendErr >= 0 {
        assert log[|o|] == c[0] == Sent(cmd);
      }
    }
  }

  lemma {:induction false} ClosingReturns(plen: nat, cmd: seq<byte>, env: Env)
    requires plen <= 250
    ensures var c := Closing(plen, cmd, env); c != [] && c[|c| - 1] == Returned(Outcome(plen, env))
  {
    FirstLook(env);
    if env.sendErr >= 0 {
      var left := Handled(env.ready, Handled(env.early, true).1).1;
      var w := Waiting(plen, env, left);
      assert w[|w| - 1] == Returned(Outcome(plen, env));
    }
  }

  // Where among the events handled with the bit set the one is that clears it.
  lemma {:induction false} FirstHit(evts: seq<byte>) returns (j: nat)
    requires AnyVendor(evts)
    ensures var marks := Handled(evts, true).0; j < |marks| && marks[j] == Event(EV_VENDOR, true)
    decreases |evts|
  {
    if Vendor(evts[0]) {
      j := 0;
    } else {
      j := FirstHit(evts[1..]);
      j := j + 1;
    }
  }

  /** Success means that a vendor event cleared the bit after it was set, before the command returned 0. */
  lemma {:induction false} AnsweredAfterArming(plen: nat, cmd: seq<byte>, env: Env)
    requires Outcome(plen, env) == 0
    ensures var log := Exchange(plen, cmd, env);
            && 2 < |log| && log[|log| - 1] == Returned(0)
            && exists i, j :: 0 <= i < j < |log| && log[i] == Armed && log[j] == Event(EV_VENDOR, true)
  {
    var log, o, c := Exchange(plen, cmd, env), Opening(env), Closing(plen, cmd, env);
    var i := |Handled(env.before, false).0|;
    assert log[i] == o[i] == Armed;
    HandledBit(env.early, true);
    if AnyVendor(env.early) {
      var j := FirstHit(env.early);
      assert log[i + 1 + j] == o[i + 1 + j] == Event(EV_VENDOR, true);
    } else {
      var j := HitInClosing(plen, cmd, env);
      assert log[|o| + j] == c[j];
    }
    ClosingEnds(plen, cmd, env);
    assert log[|log| - 1] == c[|c| - 1];
  }

  lemma {:induction false} ClosingEnds(plen: nat, cmd: seq<byte>, env: Env)
    requires Outcome(plen, env) == 0
    ensures var c := Closing(plen, cmd, env); 1 < |c| && c[|c| - 1] == Returned(0)
  {
    HandledBit(env.early, true);
    var left := Handled(env.ready, Handled(env.early, true).1).1;
    var w := Waiting(plen, env, left);
    assert w[|w| - 1] == Returned(0);
  }

  lemma {:induction false} HitInClosing(plen: nat, cmd: seq<byte>, env: Env) returns (j: nat)
    requires Outcome(plen, env) == 0 && !AnyVendor(env.early)
    ensures var c := Closing(plen, cmd, env); 0 < j < |c| && c[j] == Event(EV_VENDOR, true)
  {
    HandledBit(env.early, true);
    HandledBit(env.ready, true);
    AnyVendorJoin(env.early, env.ready);
    var (marks, left) := Handled(env.ready, true);
    var c, w := Closing(plen, cmd, env), Waiting(plen, env, left);
    assert c == [Sent(cmd)] + marks + w;
    if AnyVendor(env.ready) {
      j := FirstHit(env.ready);
      assert c[1 + j] == marks[j];
      j := 1 + j;
    } else {
      j := FirstHit(env.during);
      assert w[j] == Handled(env.during, true).0[j];
      assert c[1 + |marks| + j] == w[j];
      j := 1 + |marks| + j;
    }
  }

  /**
    The stricter reading of stop-and-wait: besides, no event clears the bit for a command that has not been
    sent, so that every answer follows its command and comes before the next one.
   */
  ghost predicate InStep(log: seq<Mark>) {
    forall n :: 0 <= n <= |log| ==> Hits(log[..n]) <= Sends(log[..n]) <= Hits(log[..n]) + 1
  }

  lemma {:induction false} FewHits(log: seq<Mark>, n: nat)
    requires n <= |log|
    ensures Hits(log[..n]) <= Hits(log)
  {
    assert log == log[..n] + log[n..];
    CountJoin(log[..n], log[n..]);
  }

  lemma {:induction false} InStepJoin(a: seq<Mark>, b: seq<Mark>)
    requires Sends(a) == Hits(a)
    ensures InStep(a + b) <==> InStep(a) && InStep(b)
  {
    forall n | 0 <= n <= |a| ensures (a + b)[..n] == a[..n] {}
    forall m | 0 <= m <= |b|
      ensures (a + b)[..|a| + m] == a + b[..m]
      ensures Sends(a + b[..m]) == Sends(a) + Sends(b[..m]) && Hits(a + b[..m]) == Hits(a) + Hits(b[..m])
    {
      CountJoin(a, b[..m]);
    }
    if InStep(a + b) {
      forall m | 0 <= m <= |b| ensures Hits(b[..m]) <= Sends(b[..m]) <= Hits(b[..m]) + 1 {
        assert (a + b)[..|a| + m] == a + b[..m];
      }
    }
    if InStep(a) && InStep(b) {
      forall n | 0 <= n <= |a + b| ensures Hits((a + b)[..n]) <= Sends((a + b)[..n]) <= Hits((a + b)[..n]) + 1 {
        if n > |a| {
          assert (a + b)[..n] == a + b[..n - |a|];
        }
      }
    }
  }

  lemma {:induction false} NothingCounted(log: seq<Mark>)
    requires Sends(log) == 0 == Hits(log)
    ensures InStep(log)
  {
    forall n | 0 <= n <= |log| ensures Hits(log[..n]) <= Sends(log[..n]) <= Hits(log[..n]) + 1 {
      FewSends(log, n);
      FewHits(log, n);
    }
  }

  lemma {:induction false} SendThenHit(cmd: seq<byte>, rest: seq<Mark>)
    requires Sends(rest) == 0 && Hits(rest) <= 1
    ensures InStep([Sent(cmd)] + rest)
  {
    var log := [Sent(cmd)] + rest;
    forall n | 0 <= n <= |log| ensures Hits(log[..n]) <= Sends(log[..n]) <= Hits(log[..n]) + 1 {
      if n > 0 {
        assert log[..n] == [Sent(cmd)] + rest[..n - 1];
        CountJoin([Sent(cmd)], rest[..n - 1]);
        FewSends(rest, n - 1);
        FewHits(rest, n - 1);
      }
    }
  }

  // No event clears the bit before the command is out: none early, and none after a send that failed.
  predicate Punctual(env: Env) {
    !AnyVendor(env.early) && (env.sendErr < 0 ==> !AnyVendor(env.late))
  }

  lemma {:induction false} ClosingInStep(plen: nat, cmd: seq<byte>, env: Env)
    requires !AnyVendor(env.early)
    ensures InStep(Closing(plen, cmd, env)) <==> Punctual(env)
  {
    var c := Closing(plen, cmd, env);
    HandledBit(env.early, true);
    if env.sendErr < 0 {
      FailingCounts(env, true, env.sendErr);
      if Punctual(env) {
        NothingCounted(c);
      } else {
        assert c[..|c|] == c;
      }
    } else {
      var (marks, left) := Handled(env.ready, true);
      HandledBit(env.ready, true);
      WaitingCounts(plen, env, left);
      CountJoin(marks, Waiting(plen, env, left));
      Regroup([Sent(cmd)], marks, Waiting(plen, env, left), []);
      SendThenHit(cmd, marks + Waiting(plen, env, left));
    }
  }

  /**
    Exactly when the answer to a command that fits cannot have come before the command: when nothing clears
    the bit between setting it and sending.  The driver does not see to that; a late answer to an earlier
    command will do.
   */
  lemma {:induction false} InStepIff(plen: nat, cmd: seq<byte>, env: Env)
    requires WMT_HDR_SIZE + plen <= 255
    ensures InStep(Exchange(plen, cmd, env)) <==> Punctual(env)
  {
    var o, c := Opening(env), Closing(plen, cmd, env);
    OpeningCounts(env);
    HandledBit(env.early, true);
    if AnyVendor(env.early) {
      assert (o + c)[..|o|] == o;
    } else {
      NothingCounted(o);
      InStepJoin(o, c);
      ClosingInStep(plen, cmd, env);
    }
  }

  /** For a command that succeeds: an event clears the bit after sending it if and only if none did before. */
  lemma {:induction false} AnsweredAfterSendingIff(plen: nat, cmd: seq<byte>, env: Env)
    requires Outcome(plen, env) == 0
    ensures var log := Exchange(plen, cmd, env);
            (exists i, j :: 0 <= i < j < |log| && log[i] == Sent(cmd) && log[j] == Event(EV_VENDOR, true))
            <==> !AnyVendor(env.early)
  {
    var log, o, c := Exchange(plen, cmd, env), Opening(env), Closing(plen, cmd, env);
    if !AnyVendor(env.early) {
      var j := HitInClosing(plen, cmd, env);
      assert c[0] == Sent(cmd) && j > 0;
      assert log[|o|] == c[0] && log[|o| + j] == c[j];
    } else {
      forall i, j | 0 <= i < j < |log| && log[i] == Sent(cmd) ensures log[j] != Event(EV_VENDOR, true) {
        NoHitAfterSend(plen, cmd, env, i, j);
      }
    }
  }

  lemma {:induction false} NoHitAfterSend(plen: nat, cmd: seq<byte>, env: Env, i: nat, j: nat)
    requires Outcome(plen, env) == 0 && AnyVendor(env.early)
    requires i < j < |Exchange(plen, cmd, env)| && Exchange(plen, cmd, env)[i] == Sent(cmd)
    ensures Exchange(plen, cmd, env)[j] != Event(EV_VENDOR, true)
  {
    var log, o, c := Exchange(plen, cmd, env), Opening(env), Closing(plen, cmd, env);
    OpeningCounts(env);
    ClosingCounts(plen, cmd, env);
    HandledBit(env.early, true);
    if i < |o| {
      assert o[i] == Sent(cmd);
      CountedOnce(o, i);
    } else {
      assert log[j] == c[j - |o|];
      if c[j - |o|] == Event(EV_VENDOR, true) {
        CountedOnce(c, j - |o|);
      }
    }
  }

  lemma {:induction false} CountedOnce(log: seq<Mark>, i: nat)
    requires i < |log|
    ensures log[i].Sent? ==> Sends(log) > 0
    ensures log[i].Event? && log[i].hit ==> Hits(log) > 0
  {
    if i > 0 {
      CountedOnce(log[1..], i - 1);
    }
  }

  /** The length field of a command lets a device take it apart again. */
  lemma {:induction false} CommandDecodes(op: byte, flag: byte, param: seq<byte>)
    requires |param| < 0xffff
    ensures var cmd := Command(op, flag, param);
            && |cmd| == 5 + |param| && cmd[0] == 1
            && (cmd[2] as int) + 256 * (cmd[3] as int) == |param| + 1
            && cmd[1] == op && cmd[4] == flag && cmd[5..] == param
  {
  }
}
