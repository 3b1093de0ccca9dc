/**
  The character LCD driver: bytes become writes to ten gpio pins.  A display that looks at its pins whenever
  the enable pin falls must find exactly the bytes the driver meant.
 */
module Lcd {
  import opened Bytes

  const GPIOS: seq<nat> := [60, 30, 66, 67, 69, 68, 45, 44, 23, 26]

  const CLEAR_DISPLAY: byte := 1
  const BUFFER_SIZE := 17

  const ENABLE := GPIOS[0]
  const REGISTER_SELECT := GPIOS[1]

  datatype PinWrite = PinWrite(pin: nat, level: nat)

  // What the display takes in at a falling edge: the register select level and the byte on the data pins.
  datatype Sample = Sample(rs: nat, data: nat)

  type Levels = map<nat, nat>

  function DataPin(i: nat): nat
    requires i < 8
  {
    GPIOS[i + 2]
  }

  /* ---- The observer ---- */

  /**
    The board: enable on pin 60, register select on 30, and the data lines, lowest bit first, on 66, 67, 69,
    68, 45, 44, 23 and 26.  The observer knows these and nothing of the driver.
   */
  predicate Wired(levels: Levels) {
    forall pin <- [60, 30, 66, 67, 69, 68, 45, 44, 23, 26] :: pin in levels
  }

  function OnBus(levels: Levels): nat
    requires Wired(levels)
  {
    levels[66] + 2 * levels[67] + 4 * levels[69] + 8 * levels[68]
    + 16 * levels[45] + 32 * levels[44] + 64 * levels[23] + 128 * levels[26]
  }

  function After(levels: Levels, trace: seq<PinWrite>): (final: Levels)
    requires Wired(levels)
    ensures Wired(final)
    decreases |trace|
  {
    if trace == [] then levels else After(levels[trace[0].pin := trace[0].level], trace[1..])
  }

  // What a write to a pin makes the display take in, if anything.
  function Edge(levels: Levels, w: PinWrite): seq<Sample>
    requires Wired(levels)
  {
    if w.pin == 60 && w.level == 0 && levels[60] == 1
    then [Sample(levels[30], OnBus(levels))]
    else []
  }

  /** The samples taken at the falling edges of enable. */
  function Sampled(levels: Levels, trace: seq<PinWrite>): seq<Sample>
    requires Wired(levels)
    decreases |trace|
  {
    if trace == [] then []
    else Edge(levels, trace[0]) + Sampled(levels[trace[0].pin := trace[0].level], trace[1..])
  }

  /** No pin other than enable is written while enable is high. */
  predicate Stable(levels: Levels, trace: seq<PinWrite>)
    requires Wired(levels)
    decreases |trace|
  {
    trace == [] || (
      && (trace[0].pin == 60 || levels[60] != 1)
      && Stable(levels[trace[0].pin := trace[0].level], trace[1..]))
  }

  lemma {:induction false} AfterJoin(levels: Levels, a: seq<PinWrite>, b: seq<PinWrite>)
    requires Wired(levels)
    ensures After(levels, a + b) == After(After(levels, a), b)
    decreases |a|
  {
    if a == [] {
      assert a + b == b;
    } else {
      assert (a + b)[1..] == a[1..] + b;
      AfterJoin(levels[a[0].pin := a[0].level], a[1..], b);
    }
  }

  lemma {:induction false} SampledJoin(levels: Levels, a: seq<PinWrite>, b: seq<PinWrite>)
    requires Wired(levels)
    ensures Sampled(levels, a + b) == Sampled(levels, a) + Sampled(After(levels, a), b)
    decreases |a|
  {
    if a == [] {
      assert a + b == b;
    } else {
      assert (a + b)[1..] == a[1..] + b;
      var next := levels[a[0].pin := a[0].level];
      SampledJoin(next, a[1..], b);
      Regroup(Edge(levels, a[0]), Sampled(next, a[1..]), Sampled(After(next, a[1..]), b), []);
    }
  }

  lemma {:induction false} StableJoin(levels: Levels, a: seq<PinWrite>, b: seq<PinWrite>)
    requires Wired(levels)
    ensures Stable(levels, a + b) <==> Stable(levels, a) && Stable(After(levels, a), b)
    decreases |a|
  {
    if a == [] {
      assert a + b == b;
    } else {
      assert (a + b)[1..] == a[1..] + b;
      StableJoin(levels[a[0].pin := a[0].level], a[1..], b);
    }
  }

  lemma {:induction false} TraceJoin(levels: Levels, a: seq<PinWrite>, b: seq<PinWrite>)
    requires Wired(levels)
    ensures After(levels, a + b) == After(After(levels, a), b)
    ensures Sampled(levels, a + b) == Sampled(levels, a) + Sampled(After(levels, a), b)
    ensures Stable(levels, a + b) <==> Stable(levels, a) && Stable(After(levels, a), b)
  {
    AfterJoin(levels, a, b);
    SampledJoin(levels, a, b);
    StableJoin(levels, a, b);
  }

  /* ---- What the driver writes ---- */

  function Power(i: nat): (p: nat)
    ensures p > 0
  {
    if i == 0 then 1 else 2 * Power(i - 1)
  }

  function Bit(b: byte, i: nat): nat {
    b / Power(i) % 2
  }

  // Data pins i to 7.
  function DataWrites(b: byte, i: nat): seq<PinWrite>
    requires i <= 8
    decreases 8 - i
  {
    if i == 8 then [] else [PinWrite(DataPin(i), Bit(b, i))] + DataWrites(b, i + 1)
  }

  function Pulse(): seq<PinWrite> {
    [PinWrite(ENABLE, 1), PinWrite(ENABLE, 0)]
  }

  function SendWrites(b: byte): seq<PinWrite> {
    DataWrites(b, 0) + Pulse()
  }

  function ByteWrites(rs: nat, b: byte): seq<PinWrite> {
    [PinWrite(REGISTER_SELECT, rs)] + SendWrites(b)
  }

  function TextWrites(text: seq<byte>): seq<PinWrite> {
    if text == [] then [] else TextWrites(text[..|text| - 1]) + ByteWrites(1, text[|text| - 1])
  }

  // One write to the device file: clear the display, then the characters.
  function FileWrites(text: seq<byte>): seq<PinWrite> {
    ByteWrites(0, CLEAR_DISPLAY) + TextWrites(text)
  }

  /** What the display should take in: the clear command, then the characters. */
  function Shown(text: seq<byte>): (samples: seq<Sample>)
    ensures |samples| == 1 + |text| && samples[0] == Sample(0, 1)
    ensures forall i :: 0 <= i < |text| ==> samples[i + 1] == Sample(1, text[i])
  {
    [Sample(0, 1)] + Characters(text)
  }

  function Characters(text: seq<byte>): (samples: seq<Sample>)
    ensures |samples| == |text| && forall i :: 0 <= i < |text| ==> samples[i] == Sample(1, text[i])
  {
    if text == [] then [] else Characters(text[..|text| - 1]) + [Sample(1, text[|text| - 1])]
  }

  /* ---- The driver ---- */

  class Driver {
    // Every gpio_set_value so far, in order, and what each write to the device file put on the display.
    var trace: seq<PinWrite>
    ghost var texts: seq<seq<byte>>
    const lcdBuffer: array<byte>

    ghost predicate Valid()
      reads this
    {
      lcdBuffer.Length == BUFFER_SIZE && trace == AllWrites(texts)
    }

    constructor ()
      ensures Valid() && trace == [] && texts == [] && fresh(lcdBuffer)
    {
      trace, texts := [], [];
      lcdBuffer := new byte[BUFFER_SIZE];
    }

    method GpioSetValue(pin: nat, level: nat)
      modifies this`trace
      ensures trace == old(trace) + [PinWrite(pin, level)]
    {
      trace := trace + [PinWrite(pin, level)];
    }

    method LcdEnable()
      modifies this`trace
      ensures trace == old(trace) + Pulse()
    {
      GpioSetValue(GPIOS[0], 1);
      GpioSetValue(GPIOS[0], 0);
    }

    method LcdSendByte(data: byte)
      modifies this`trace
      ensures trace == old(trace) + SendWrites(data)
      ensures forall levels :: Wired(levels) && levels[60] != 1 ==>
                Sampled(levels, SendWrites(data)) == [Sample(levels[30], data)] && Stable(levels, SendWrites(data))
    {
      var i := 0;
      var weight := 1;
      while i < 8
        invariant 0 <= i <= 8 && weight == Power(i)
        invariant old(trace) + DataWrites(data, 0) == trace + DataWrites(data, i)
      {
        Regroup(trace, [PinWrite(DataPin(i), Bit(data, i))], DataWrites(data, i + 1), []);
        GpioSetValue(GPIOS[i + 2], data / weight % 2);
        i := i + 1;
        weight := 2 * weight;
      }
      assert trace == old(trace) + DataWrites(data, 0);
      LcdEnable();
      Regroup(old(trace), DataWrites(data, 0), Pulse(), []);
      forall levels | Wired(levels) && levels[60] != 1
        ensures Sampled(levels, SendWrites(data)) == [Sample(levels[30], data)] && Stable(levels, SendWrites(data))
      {
        SendSampled(levels, data);
      }
    }

    method LcdCommand(data: byte)
      modifies this`trace
      ensures trace == old(trace) + ByteWrites(0, data)
    {
      GpioSetValue(GPIOS[1], 0);
      LcdSendByte(data);
      Regroup(old(trace), [PinWrite(REGISTER_SELECT, 0)], SendWrites(data), []);
    }

    method LcdData(data: byte)
      modifies this`trace
      ensures trace == old(trace) + ByteWrites(1, data)
    {
      GpioSetValue(GPIOS[1], 1);
      LcdSendByte(data);
      Regroup(old(trace), [PinWrite(REGISTER_SELECT, 1)], SendWrites(data), []);
    }

    /**
      A write to the device file.  At most 17 characters are taken; notCopied of them do not make it out of
      user space, and the tail of the buffer then holds whatever the copy left there.  All of the buffer's
      characters are displayed, but only the copied ones are reported.
     */
    method Write(user: seq<byte>, notCopied: nat, left: seq<byte>) returns (delta: nat, shown: seq<byte>)
      requires Valid() && notCopied <= |user| && notCopied <= 17 && |left| == notCopied
      modifies this`trace, this`texts, lcdBuffer
      ensures Valid() && texts == old(texts) + [shown]
      ensures |shown| == if |user| < 17 then |user| else 17
      ensures delta == |shown| - notCopied
      ensures shown[..delta] == user[..delta] && shown[delta..] == left
      ensures trace == old(trace) + FileWrites(shown)
      ensures Adds(old(trace), Shown(shown))
    {
      var toCopy := if |user| < BUFFER_SIZE then |user| else BUFFER_SIZE;
      delta := toCopy - notCopied;
      shown := user[..delta] + left;
      forall i | 0 <= i < toCopy { lcdBuffer[i] := shown[i]; }

      Display(toCopy);
      assert lcdBuffer[..toCopy] == shown;
      AllWritesSnoc(texts, shown);
      WriteSampled(texts, shown);
      texts := texts + [shown];
    }

    // Seen from the start, the display has taken in these samples since the trace was before.
    ghost predicate Adds(before: seq<PinWrite>, samples: seq<Sample>)
      reads this
    {
      forall levels :: Wired(levels) && levels[60] != 1 ==>
        Sampled(levels, trace) == Sampled(levels, before) + samples && Stable(levels, trace)
    }

    // A write whose characters all make it out of user space shows the first of them, up to the buffer size.
    method WriteWhole(user: seq<byte>) returns (delta: nat)
      requires Valid()
      modifies this`trace, this`texts, lcdBuffer
      ensures delta == if |user| < 17 then |user| else 17
      ensures Valid() && texts == old(texts) + [user[..delta]]
      ensures Adds(old(trace), Shown(user[..delta]))
    {
      var shown;
      delta, shown := Write(user, 0, []);
      assert shown == shown[..delta];
    }

    /** The display has taken in exactly the texts, from the driver's first pin write on. */
    lemma {:induction false} Displayed(levels: Levels)
      requires Valid() && Wired(levels) && levels[60] != 1
      ensures Sampled(levels, trace) == AllShown(texts) && Stable(levels, trace)
    {
      Transcript(levels, texts);
    }

    // The display loop: clear, then the first n characters of the buffer.
    method Display(n: nat)
      requires lcdBuffer.Length == BUFFER_SIZE && n <= BUFFER_SIZE
      modifies this`trace
      ensures trace == old(trace) + FileWrites(lcdBuffer[..n])
    {
      LcdCommand(CLEAR_DISPLAY);
      var i := 0;
      ghost var text := lcdBuffer[..n];
      while i < n
        invariant 0 <= i <= n
        invariant trace == old(trace) + FileWrites(text[..i])
      {
        OneMoreCharacter(old(trace), text, i);
        LcdData(lcdBuffer[i]);
        i := i + 1;
      }
      assert text[..n] == text;
    }
  }

  lemma {:induction false} OneMoreCharacter(trace: seq<PinWrite>, text: seq<byte>, i: nat)
    requires i < |text|
    ensures trace + FileWrites(text[..i]) + ByteWrites(1, text[i]) == trace + FileWrites(text[..i + 1])
  {
    assert text[..i + 1][..i] == text[..i];
    Regroup(ByteWrites(0, CLEAR_DISPLAY), TextWrites(text[..i]), ByteWrites(1, text[i]), []);
    Regroup(trace, FileWrites(text[..i]), ByteWrites(1, text[i]), []);
  }

  /* ---- The display gets what was meant ---- */

  // The driver's table is the board's wiring, and no pin is used twice.
  lemma {:induction false} PinsDistinct()
    ensures ENABLE == 60 && REGISTER_SELECT == 30
    ensures DataPin(0) == 66 && DataPin(1) == 67 && DataPin(2) == 69 && DataPin(3) == 68
    ensures DataPin(4) == 45 && DataPin(5) == 44 && DataPin(6) == 23 && DataPin(7) == 26
    ensures forall i :: 0 <= i < 8 ==> DataPin(i) != ENABLE && DataPin(i) != REGISTER_SELECT
    ensures forall i, j :: 0 <= i < j < 8 ==> DataPin(i) != DataPin(j)
    ensures forall levels :: Wired(levels) ==>
              ENABLE in levels && REGISTER_SELECT in levels && forall i :: 0 <= i < 8 ==> DataPin(i) in levels
  {
  }

  // Setting data pins i to 7 gives them the byte's bits and changes nothing else.
  lemma {:induction false} DataSet(levels: Levels, b: byte, i: nat)
    requires Wired(levels) && i <= 8 && levels[60] != 1
    ensures var final := After(levels, DataWrites(b, i));
            && (forall j :: i <= j < 8 ==> final[DataPin(j)] == Bit(b, j))
            && (forall j :: 0 <= j < i ==> final[DataPin(j)] == levels[DataPin(j)])
            && final[ENABLE] == levels[ENABLE] && final[REGISTER_SELECT] == levels[REGISTER_SELECT]
    ensures Sampled(levels, DataWrites(b, i)) == [] && Stable(levels, DataWrites(b, i))
    decreases 8 - i
  {
    PinsDistinct();
    if i < 8 {
      var w := PinWrite(DataPin(i), Bit(b, i));
      assert DataWrites(b, i)[1..] == DataWrites(b, i + 1);
      DataSet(levels[w.pin := w.level], b, i + 1);
    }
  }

  lemma {:induction false} BitsMakeByte(b: byte)
    ensures Bit(b, 0) + 2 * Bit(b, 1) + 4 * Bit(b, 2) + 8 * Bit(b, 3)
            + 16 * Bit(b, 4) + 32 * Bit(b, 5) + 64 * Bit(b, 6) + 128 * Bit(b, 7) == b
  {
    Powers();
    var n: int := b;
    assert n / 2 / 2 == n / 4 && n / 4 / 2 == n / 8 && n / 8 / 2 == n / 16 && n / 16 / 2 == n / 32;
    assert n / 32 / 2 == n / 64 && n / 64 / 2 == n / 128 && n / 128 < 2;
  }

  lemma {:induction false} Powers()
    ensures Power(0) == 1 && Power(1) == 2 && Power(2) == 4 && Power(3) == 8
    ensures Power(4) == 16 && Power(5) == 32 && Power(6) == 64 && Power(7) == 128
  {
    assert Power(4) == 2 * Power(3) && Power(5) == 2 * Power(4);
    assert Power(6) == 2 * Power(5) && Power(7) == 2 * Power(6);
  }

  lemma {:induction false} PulseSamples(levels: Levels)
    requires Wired(levels) && levels[60] != 1
    ensures Sampled(levels, Pulse()) == [Sample(levels[30], OnBus(levels))]
    ensures Stable(levels, Pulse())
    ensures After(levels, Pulse()) == levels[60 := 0]
  {
    PinsDistinct();
    var high, low := levels[ENABLE := 1], levels[60 := 0];
    var fall := [PinWrite(ENABLE, 0)];
    assert Pulse()[1..] == fall && fall[1..] == [];
    assert high[ENABLE := 0] == low;
    assert forall i :: 0 <= i < 8 ==> high[DataPin(i)] == levels[DataPin(i)];
    assert Edge(levels, Pulse()[0]) == [];
    assert Edge(high, fall[0]) == [Sample(levels[30], OnBus(levels))];
    assert Sampled(high, fall) == Edge(high, fall[0]) + Sampled(low, []);
    assert Sampled(low, []) == [] && After(low, []) == low && Stable(low, []);
    assert Stable(high, fall) && After(high, fall) == low;
  }

  /** One byte is one sample, the right one, and the bus holds still around it. */
  lemma {:induction false} ByteSampled(levels: Levels, rs: nat, b: byte)
    requires Wired(levels) && levels[60] != 1
    ensures Sampled(levels, ByteWrites(rs, b)) == [Sample(rs, b)]
    ensures Stable(levels, ByteWrites(rs, b))
    ensures After(levels, ByteWrites(rs, b))[60] == 0
  {
    var select := [PinWrite(REGISTER_SELECT, rs)];
    var l1 := levels[30 := rs];
    SelectSet(levels, rs);
    SendSampled(l1, b);
    TraceJoin(levels, select, SendWrites(b));
  }

  lemma {:induction false} SelectSet(levels: Levels, rs: nat)
    requires Wired(levels) && levels[60] != 1
    ensures var select := [PinWrite(REGISTER_SELECT, rs)];
            && After(levels, select) == levels[30 := rs]
            && Sampled(levels, select) == [] && Stable(levels, select)
  {
    var select := [PinWrite(REGISTER_SELECT, rs)];
    assert select[1..] == [];
    assert After(levels[30 := rs], []) == levels[30 := rs];
    assert Edge(levels, select[0]) == [] && Sampled(levels[30 := rs], []) == [];
    assert Stable(levels[30 := rs], []);
  }

  lemma {:induction false} SendSampled(levels: Levels, b: byte)
    requires Wired(levels) && levels[60] != 1
    ensures Sampled(levels, SendWrites(b)) == [Sample(levels[30], b)]
    ensures Stable(levels, SendWrites(b))
    ensures After(levels, SendWrites(b))[60] == 0
  {
    DataSet(levels, b, 0);
    var bus := After(levels, DataWrites(b, 0));
    BusHolds(bus, b);
    PulseSamples(bus);
    TraceJoin(levels, DataWrites(b, 0), Pulse());
  }

  lemma {:induction false} BusHolds(levels: Levels, b: byte)
    requires Wired(levels) && forall j :: 0 <= j < 8 ==> levels[DataPin(j)] == Bit(b, j)
    ensures OnBus(levels) == b
  {
    BitsMakeByte(b);
  }

  lemma {:induction false} TextSampled(levels: Levels, text: seq<byte>)
    requires Wired(levels) && levels[60] != 1
    ensures Sampled(levels, TextWrites(text)) == Characters(text)
    ensures Stable(levels, TextWrites(text))
    ensures After(levels, TextWrites(text))[60] != 1
    decreases |text|
  {
    if text != [] {
      var n := |text| - 1;
      TextSampled(levels, text[..n]);
      TraceJoin(levels, TextWrites(text[..n]), ByteWrites(1, text[n]));
      ByteSampled(After(levels, TextWrites(text[..n])), 1, text[n]);
    }
  }

  function AllWrites(texts: seq<seq<byte>>): seq<PinWrite> {
    if texts == [] then [] else FileWrites(texts[0]) + AllWrites(texts[1..])
  }

  lemma {:induction false} AllWritesSnoc(texts: seq<seq<byte>>, text: seq<byte>)
    ensures AllWrites(texts + [text]) == AllWrites(texts) + FileWrites(text)
  {
    if texts == [] {
      assert texts + [text] == [text];
      assert AllWrites([text]) == FileWrites(text) + AllWrites([]);
    } else {
      assert (texts + [text])[1..] == texts[1..] + [text];
      AllWritesSnoc(texts[1..], text);
      Regroup(FileWrites(texts[0]), AllWrites(texts[1..]), FileWrites(text), []);
    }
  }

  lemma {:induction false} WriteSampled(texts: seq<seq<byte>>, text: seq<byte>)
    ensures forall levels :: Wired(levels) && levels[60] != 1 ==>
              && Sampled(levels, AllWrites(texts + [text])) == Sampled(levels, AllWrites(texts)) + Shown(text)
              && Stable(levels, AllWrites(texts + [text]))
  {
    forall levels | Wired(levels) && levels[60] != 1
      ensures Sampled(levels, AllWrites(texts + [text])) == Sampled(levels, AllWrites(texts)) + Shown(text)
      ensures Stable(levels, AllWrites(texts + [text]))
    {
      Transcript(levels, texts);
      Transcript(levels, texts + [text]);
      AllShownSnoc(texts, text);
    }
  }

  lemma {:induction false} AllShownSnoc(texts: seq<seq<byte>>, text: seq<byte>)
    ensures AllShown(texts + [text]) == AllShown(texts) + Shown(text)
  {
    if texts == [] {
      assert texts + [text] == [text];
      assert AllShown([text]) == Shown(text) + AllShown([]);
    } else {
      assert (texts + [text])[1..] == texts[1..] + [text];
      AllShownSnoc(texts[1..], text);
    }
  }

  function AllShown(texts: seq<seq<byte>>): seq<Sample> {
    if texts == [] then [] else Shown(texts[0]) + AllShown(texts[1..])
  }

  /**
    Over any sequence of writes the display takes in, per write, one clear command and then the characters in
    order, and nothing moves on the bus while enable is high.
   */
  lemma {:induction false} Transcript(levels: Levels, texts: seq<seq<byte>>)
    requires Wired(levels) && levels[60] != 1
    ensures Sampled(levels, AllWrites(texts)) == AllShown(texts)
    ensures Stable(levels, AllWrites(texts))
    decreases |texts|
  {
    if texts != [] {
      var clear, text := ByteWrites(0, CLEAR_DISPLAY), TextWrites(texts[0]);
      ByteSampled(levels, 0, CLEAR_DISPLAY);
      var l1 := After(levels, clear);
      TextSampled(l1, texts[0]);
      TraceJoin(levels, clear, text);
      TraceJoin(levels, FileWrites(texts[0]), AllWrites(texts[1..]));
      Transcript(After(l1, text), texts[1..]);
    }
  }
}
