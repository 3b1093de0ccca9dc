/**
  Reading the BMP280 over SPI.  One driver builds transfer lists by hand and reads in bursts, the other reads
  one register at a time; both get the same readings and coefficients out of every register map.
 */
module Bmp280Bus {
  import opened Bytes
  import opened Bmp280Temperature

  const RX_SIZE := 18

  // The chip: what each address reads as, and what is on the line while the address itself is sent.
  datatype Chip = Chip(regs: seq<byte>, idle: byte) {
    predicate Valid() { |regs| == 256 }
  }

  // After chip select the first byte is an address; every further byte reads a register and moves on.
  datatype Select = Selected | Reading(addr: byte)

  // One transfer of a message: bytes out of tx_buf from an index (zeros without one), bytes into rx_buf.
  datatype Xfer = Xfer(tx: Option<nat>, rx: Option<nat>, len: nat, csChange: bool) {
    predicate Fits() {
      && (tx.Some? ==> tx.value + len <= RX_SIZE)
      && (rx.Some? ==> rx.value + len <= RX_SIZE)
    }
  }

  function Next(a: byte): byte {
    if a == 255 then 0 else a + 1
  }

  // One byte on the wire: what the chip answers and where it stands then.
  function Clock(chip: Chip, sel: Select, out: byte): (r: (Select, byte))
    requires chip.Valid()
  {
    match sel
    case Selected => (Reading(out), chip.idle)
    case Reading(a) => (Reading(Next(a)), chip.regs[a])
  }

  // Bytes i to len - 1 of a transfer.
  function Shift(chip: Chip, sel: Select, x: Xfer, i: nat, tx: seq<byte>, rx: seq<byte>): (r: (Select, seq<byte>))
    requires chip.Valid() && x.Fits() && |tx| == |rx| == RX_SIZE
    ensures |r.1| == RX_SIZE
    decreases x.len - i
  {
    if i >= x.len then (sel, rx)
    else
      var (sel', answer) := Clock(chip, sel, if x.tx.Some? then tx[x.tx.value + i] else 0);
      Shift(chip, sel', x, i + 1, tx, if x.rx.Some? then rx[x.rx.value + i := answer] else rx)
  }

  /** A whole message: between transfers the chip is deselected where csChange says so. */
  function Message(chip: Chip, sel: Select, xs: seq<Xfer>, tx: seq<byte>, rx: seq<byte>): (rx': seq<byte>)
    requires chip.Valid() && (forall x <- xs :: x.Fits()) && |tx| == |rx| == RX_SIZE
    ensures |rx'| == RX_SIZE
    decreases |xs|
  {
    if xs == [] then rx
    else
      var (sel', got) := Shift(chip, sel, xs[0], 0, tx, rx);
      Message(chip, if xs[0].csChange then Selected else sel', xs[1..], tx, got)
  }

  function Address(i: nat): Xfer { Xfer(Some(i), None, 1, false) }

  function Answer(i: nat, len: nat): Xfer { Xfer(None, Some(i), len, true) }

  /* ---- What the two shapes of message read ---- */

  // Address k / 2 from tx[k] in every even transfer, its answer to rx[k + 1] in the next.
  predicate Paired(xs: seq<Xfer>, at: nat) {
    && |xs| % 2 == 0 && at + |xs| <= RX_SIZE
    && forall k :: 0 <= k < |xs| ==> xs[k] == if k % 2 == 0 then Address(at + k) else Answer(at + k, 1)
  }

  lemma {:induction false} OnePair(chip: Chip, at: nat, tx: seq<byte>, rx: seq<byte>)
    requires chip.Valid() && at + 1 < RX_SIZE && |tx| == |rx| == RX_SIZE
    ensures Shift(chip, Selected, Address(at), 0, tx, rx) == (Reading(tx[at]), rx)
    ensures Shift(chip, Reading(tx[at]), Answer(at + 1, 1), 0, tx, rx).1 == rx[at + 1 := chip.regs[tx[at]]]
  {
    assert Shift(chip, Reading(tx[at]), Address(at), 1, tx, rx) == (Reading(tx[at]), rx);
    var got := rx[at + 1 := chip.regs[tx[at]]];
    assert Shift(chip, Reading(Next(tx[at])), Answer(at + 1, 1), 1, tx, got).1 == got;
  }

  // rx after n pairs from at on: every second byte is a register.
  function PairFill(chip: Chip, at: nat, n: nat, tx: seq<byte>, rx: seq<byte>): (got: seq<byte>)
    requires chip.Valid() && |tx| == |rx| == RX_SIZE && at + 2 * n <= RX_SIZE
    ensures |got| == RX_SIZE
    decreases n
  {
    if n == 0 then rx else PairFill(chip, at + 2, n - 1, tx, rx[at + 1 := chip.regs[tx[at]]])
  }

  lemma {:induction false} PairsRead(chip: Chip, xs: seq<Xfer>, at: nat, n: nat, tx: seq<byte>, rx: seq<byte>)
    requires chip.Valid() && |tx| == |rx| == RX_SIZE && Paired(xs, at) && |xs| == 2 * n && forall x <- xs :: x.Fits()
    ensures Message(chip, Selected, xs, tx, rx) == PairFill(chip, at, n, tx, rx)
    decreases n
  {
    if n > 0 {
      OnePair(chip, at, tx, rx);
      assert xs[0] == Address(at) && xs[1] == Answer(at + 1, 1);
      var rest := xs[1..][1..];
      assert rest == xs[2..];
      PairsRead(chip, rest, at + 2, n - 1, tx, rx[at + 1 := chip.regs[tx[at]]]);
    }
  }

  // The j-th answer is the j-th address's register; bytes before the pairs stay.
  lemma {:induction false} PairFillAt(chip: Chip, at: nat, n: nat, tx: seq<byte>, rx: seq<byte>, j: nat)
    requires chip.Valid() && |tx| == |rx| == RX_SIZE && at + 2 * n <= RX_SIZE && j < n
    ensures PairFill(chip, at, n, tx, rx)[at + 2 * j + 1] == chip.regs[tx[at + 2 * j]]
    decreases n
  {
    var mid := rx[at + 1 := chip.regs[tx[at]]];
    if j > 0 {
      PairFillAt(chip, at + 2, n - 1, tx, mid, j - 1);
    } else {
      PairFillKeeps(chip, at + 2, n - 1, tx, mid, at + 1);
    }
  }

  lemma {:induction false} PairFillKeeps(chip: Chip, at: nat, n: nat, tx: seq<byte>, rx: seq<byte>, k: nat)
    requires chip.Valid() && |tx| == |rx| == RX_SIZE && at + 2 * n <= RX_SIZE && k < at && k < RX_SIZE
    ensures PairFill(chip, at, n, tx, rx)[k] == rx[k]
    decreases n
  {
    if n > 0 {
      PairFillKeeps(chip, at + 2, n - 1, tx, rx[at + 1 := chip.regs[tx[at]]], k);
    }
  }

  // From register a on, n bytes into rx from i on.
  lemma {:induction false} BurstShift(chip: Chip, a: byte, x: Xfer, i: nat, tx: seq<byte>, rx: seq<byte>)
    requires chip.Valid() && x.Fits() && |tx| == |rx| == RX_SIZE
    requires x.rx == Some(0) && x.tx.None? && i <= x.len && a as int + x.len - i <= 256
    ensures Shift(chip, Reading(a), x, i, tx, rx).1 ==
            rx[..i] + chip.regs[a..a as int + x.len - i] + rx[x.len..]
    decreases x.len - i
  {
    if i < x.len {
      var rx1 := rx[i := chip.regs[a]];
      assert Shift(chip, Reading(a), x, i, tx, rx) == Shift(chip, Reading(Next(a)), x, i + 1, tx, rx1);
      if a < 255 {
        BurstShift(chip, a + 1, x, i + 1, tx, rx1);
      } else {
        assert Shift(chip, Reading(Next(a)), x, i + 1, tx, rx1).1 == rx1;
        assert rx1 == rx1[..i + 1] + [] + rx1[x.len..];
      }
      OneMoreByte(chip.regs, a, rx, i, x.len);
    } else {
      assert rx == rx[..i] + [] + rx[i..];
    }
  }

  lemma {:induction false} OneMoreByte(regs: seq<byte>, a: nat, rx: seq<byte>, i: nat, len: nat)
    requires i < len <= |rx| && a + len - i <= |regs|
    ensures rx[i := regs[a]][..i + 1] + regs[a + 1..a + len - i] + rx[i := regs[a]][len..] ==
            rx[..i] + regs[a..a + len - i] + rx[len..]
  {
    assert regs[a..a + len - i] == [regs[a]] + regs[a + 1..a + len - i];
  }

  lemma {:induction false} BurstReads(chip: Chip, len: nat, tx: seq<byte>, rx: seq<byte>)
    requires chip.Valid() && len <= RX_SIZE && |tx| == |rx| == RX_SIZE && tx[0] as int + len <= 256
    ensures var got := Message(chip, Selected, [Address(0), Answer(0, len)], tx, rx);
            got[..len] == chip.regs[tx[0]..tx[0] as int + len]
  {
    var xs := [Address(0), Answer(0, len)];
    assert Shift(chip, Reading(tx[0]), Address(0), 1, tx, rx) == (Reading(tx[0]), rx);
    assert Shift(chip, Selected, Address(0), 0, tx, rx) == (Reading(tx[0]), rx);
    var got := Shift(chip, Reading(tx[0]), Answer(0, len), 0, tx, rx).1;
    assert xs[1..] == [Answer(0, len)] && xs[1..][1..] == [];
    assert Message(chip, Reading(tx[0]), xs[1..], tx, rx) == Message(chip, Selected, [], tx, got) == got;
    BurstShift(chip, tx[0], Answer(0, len), 0, tx, rx);
  }

  /* ---- What the registers mean ---- */

  const REG_PRESSURE: byte := 0xF7
  const REG_TEMP: byte := 0xFA
  const DIG_T: byte := 0x88
  const DIG_P: byte := 0x8E

  // A 20-bit reading: the low nibble of the third register does not count.
  function Reading20(b0: byte, b1: byte, b2: byte): u20 {
    b0 as int * 4096 + b1 as int * 16 + b2 as int / 16
  }

  function Word(low: byte, high: byte): u16 {
    high as int * 256 + low as int
  }

  datatype TempInputs = TempInputs(adcT: u20, digT1: u16, digT2: u16, digT3: u16)
  datatype PressureInputs = PressureInputs(adcP: u20, digP: seq<u16>)

  /** What the data sheet's register layout makes of a register map. */
  function TempOf(chip: Chip): TempInputs
    requires chip.Valid()
  {
    var r := chip.regs;
    TempInputs(Reading20(r[REG_TEMP], r[REG_TEMP + 1], r[REG_TEMP + 2]),
               Word(r[DIG_T], r[DIG_T + 1]), Word(r[DIG_T + 2], r[DIG_T + 3]), Word(r[DIG_T + 4], r[DIG_T + 5]))
  }

  function TempValue(chip: Chip): int
    requires chip.Valid()
  {
    var TempInputs(adcT, t1, t2, t3) := TempOf(chip);
    Computed(adcT, t1, t2, t3)
  }

  function PressureOf(chip: Chip): PressureInputs
    requires chip.Valid()
  {
    var r := chip.regs;
    PressureInputs(Reading20(r[REG_PRESSURE], r[REG_PRESSURE + 1], r[REG_PRESSURE + 2]),
                   seq(9, i requires 0 <= i < 9 => Word(r[DIG_P + 2 * i], r[DIG_P + 2 * i + 1])))
  }

  /* ---- A chip that stores given values ---- */

  /** A coefficient, low byte first. */
  predicate Stores16(regs: seq<byte>, at: nat, w: u16) {
    at + 2 <= |regs| && regs[at] == w % 256 && regs[at + 1] == w / 256
  }

  /** A 20-bit reading, high byte first; the low nibble of the third byte is anything. */
  predicate Stores20(regs: seq<byte>, at: nat, v: u20) {
    at + 3 <= |regs| && regs[at] == v / 4096 && regs[at + 1] == v / 16 % 256 && regs[at + 2] / 16 == v % 16
  }

  predicate StoresTemp(chip: Chip, want: TempInputs) {
    && Stores20(chip.regs, 0xFA, want.adcT)
    && Stores16(chip.regs, 0x88, want.digT1)
    && Stores16(chip.regs, 0x8A, want.digT2)
    && Stores16(chip.regs, 0x8C, want.digT3)
  }

  predicate StoresPressure(chip: Chip, want: PressureInputs) {
    && Stores20(chip.regs, 0xF7, want.adcP)
    && |want.digP| == 9
    && forall i :: 0 <= i < 9 ==> Stores16(chip.regs, 0x8E + 2 * i, want.digP[i])
  }

  // A reading and a coefficient are stored in one way only, and are what the drivers put together.
  lemma {:induction false} StoredOnce(regs: seq<byte>, at: nat)
    requires at + 3 <= |regs|
    ensures forall w: u16 :: Stores16(regs, at, w) <==> w == Word(regs[at], regs[at + 1])
    ensures forall v: u20 :: Stores20(regs, at, v) <==> v == Reading20(regs[at], regs[at + 1], regs[at + 2])
  {
    forall w: u16 ensures Stores16(regs, at, w) <==> w == Word(regs[at], regs[at + 1]) {
      assert w == w / 256 * 256 + w % 256;
    }
    forall v: u20 ensures Stores20(regs, at, v) <==> v == Reading20(regs[at], regs[at + 1], regs[at + 2]) {
      assert v / 16 / 256 == v / 4096 && v == v / 16 * 16 + v % 16;
    }
  }

  /** Whatever temperature inputs a chip stores, they are the ones the drivers read. */
  lemma {:induction false} TempStored(chip: Chip, want: TempInputs)
    requires chip.Valid()
    ensures StoresTemp(chip, want) <==> want == TempOf(chip)
  {
    StoredOnce(chip.regs, 0xFA);
    StoredOnce(chip.regs, 0x88);
    StoredOnce(chip.regs, 0x8A);
    StoredOnce(chip.regs, 0x8C);
  }

  lemma {:induction false} PressureStored(chip: Chip, want: PressureInputs)
    requires chip.Valid()
    ensures StoresPressure(chip, want) <==> want == PressureOf(chip)
  {
    StoredOnce(chip.regs, 0xF7);
    var read := PressureOf(chip);
    forall i | 0 <= i < 9
      ensures |want.digP| == 9 ==> (Stores16(chip.regs, 0x8E + 2 * i, want.digP[i]) <==> want.digP[i] == read.digP[i])
    {
      StoredOnce(chip.regs, 0x8E + 2 * i);
    }
    if StoresPressure(chip, want) {
      assert want.digP == read.digP;
    }
  }

  /* ---- The driver with hand-built transfer lists ---- */

  class ListDriver {
    const chip: Chip
    const txBuf: array<byte>
    const rxBuf: array<byte>
    const ringXfer: array<Xfer>
    // What the bus reports for each message to come; negative is an error.
    var reports: seq<int>

    ghost predicate Valid()
      reads this
    {
      && chip.Valid()
      && txBuf.Length == RX_SIZE && rxBuf.Length == RX_SIZE && ringXfer.Length == RX_SIZE
      && txBuf != rxBuf
    }

    constructor (chip: Chip, reports: seq<int>)
      requires chip.Valid()
      ensures Valid() && this.chip == chip && this.reports == reports
      ensures fresh(txBuf) && fresh(rxBuf) && fresh(ringXfer)
    {
      this.chip, this.reports := chip, reports;
      txBuf := new byte[RX_SIZE];
      rxBuf := new byte[RX_SIZE];
      ringXfer := new Xfer[RX_SIZE](_ => Address(0));
    }

    // The bus carries out the first n transfers, or reports an error and leaves the buffer alone.
    method SpiSync(n: nat) returns (ret: int)
      requires Valid() && n <= RX_SIZE && forall x <- ringXfer[..n] :: x.Fits()
      modifies rxBuf, this`reports
      ensures ret == (if old(reports) == [] then 0 else old(reports)[0])
      ensures reports == (if old(reports) == [] then [] else old(reports)[1..])
      ensures ret >= 0 ==> rxBuf[..] == Message(chip, Selected, ringXfer[..n], txBuf[..], old(rxBuf[..]))
      ensures ret < 0 ==> rxBuf[..] == old(rxBuf[..])
    {
      ret := 0;
      if reports != [] {
        ret, reports := reports[0], reports[1..];
      }
      if ret >= 0 {
        var got := Message(chip, Selected, ringXfer[..n], txBuf[..], rxBuf[..]);
        forall i | 0 <= i < RX_SIZE { rxBuf[i] := got[i]; }
        assert rxBuf[..] == got;
        assert ringXfer[..n] == old(ringXfer[..n]) && txBuf[..] == old(txBuf[..]);
      }
    }

    // The loop both parts of a temperature read start with: one address and one answer per register.
    method BuildPairs(addrs: seq<byte>)
      requires Valid() && 2 * |addrs| <= RX_SIZE
      modifies txBuf, ringXfer
      ensures Paired(ringXfer[..2 * |addrs|], 0)
      ensures forall x <- ringXfer[..2 * |addrs|] :: x.Fits()
      ensures forall j :: 0 <= j < |addrs| ==> txBuf[2 * j] == addrs[j]
    {
      var k := 0;
      while k < 2 * |addrs|
        invariant 0 <= k <= 2 * |addrs| && k % 2 == 0
        invariant forall i :: 0 <= i < k ==> ringXfer[i] == if i % 2 == 0 then Address(i) else Answer(i, 1)
        invariant forall j :: 0 <= j < k / 2 ==> txBuf[2 * j] == addrs[j]
      {
        txBuf[k] := addrs[k / 2];
        ringXfer[k] := Xfer(Some(k), None, 1, false);
        ringXfer[k + 1] := Xfer(None, Some(k + 1), 1, true);
        k := k + 2;
      }
    }

    // Builds, sends and de-interleaves: the registers at the addresses, in order.
    method ReadPairs(addrs: seq<byte>) returns (ret: int, data: seq<byte>)
      requires Valid() && 2 * |addrs| <= RX_SIZE
      modifies txBuf, ringXfer, rxBuf, this`reports
      ensures ret == (if old(reports) == [] then 0 else old(reports)[0])
      ensures reports == (if old(reports) == [] then [] else old(reports)[1..])
      ensures ret >= 0 ==> |data| == |addrs| && forall j :: 0 <= j < |addrs| ==> data[j] == chip.regs[addrs[j]]
    {
      BuildPairs(addrs);
      ghost var tx, rx, xs := txBuf[..], rxBuf[..], ringXfer[..2 * |addrs|];
      ret := SpiSync(2 * |addrs|);
      data := [];
      if ret < 0 { return; }
      PairsRead(chip, xs, 0, |addrs|, tx, rx);
      ghost var got := PairFill(chip, 0, |addrs|, tx, rx);
      assert rxBuf[..] == got && forall j :: 0 <= j < |addrs| ==> tx[2 * j] == addrs[j];
      var k := 0;
      while k < |addrs|
        invariant 0 <= k <= |addrs| && |data| == k && rxBuf[..] == got
        invariant reports == if old(reports) == [] then [] else old(reports)[1..]
        invariant forall j :: 0 <= j < k ==> data[j] == chip.regs[addrs[j]]
      {
        PairFillAt(chip, 0, |addrs|, tx, rx, k);
        assert rxBuf[2 * k + 1] == got[2 * k + 1] == chip.regs[addrs[k]];
        data := data + [rxBuf[2 * k + 1]];
        k := k + 1;
      }
    }

    // One address, then len registers in a row.
    method ReadBurst(addr: byte, len: nat) returns (ret: int, data: seq<byte>)
      requires Valid() && len <= RX_SIZE && addr as int + len <= 256
      modifies txBuf, ringXfer, rxBuf, this`reports
      ensures ret == (if old(reports) == [] then 0 else old(reports)[0])
      ensures reports == (if old(reports) == [] then [] else old(reports)[1..])
      ensures ret >= 0 ==> data == chip.regs[addr..addr as int + len]
    {
      txBuf[0] := addr;
      ringXfer[0] := Xfer(Some(0), None, 1, false);
      ringXfer[1] := Xfer(None, Some(0), len, true);
      assert ringXfer[..2] == [Address(0), Answer(0, len)];
      BurstReads(chip, len, txBuf[..], rxBuf[..]);
      ret := SpiSync(2);
      data := [];
      if ret < 0 { return; }
      data := rxBuf[..len];
      assert data == rxBuf[..][..len];
    }

    /** The inputs of a temperature reading; a bus error on either message is returned as it is. */
    method ReadTemp() returns (ret: int, inputs: Option<TempInputs>)
      requires Valid()
      modifies txBuf, ringXfer, rxBuf, this`reports
      ensures ret >= 0 <==> inputs.Some?
      ensures inputs.Some? ==> inputs.value == TempOf(chip) && StoresTemp(chip, inputs.value)
      ensures inputs.Some? <==> forall k :: 0 <= k < 2 && k < |old(reports)| ==> old(reports)[k] >= 0
      ensures inputs.None? ==> exists k :: 0 <= k < 2 && k < |old(reports)| && ret == old(reports)[k] < 0
                                     && forall j :: 0 <= j < k ==> old(reports)[j] >= 0
    {
      var buf, digT;
      ret, buf := ReadPairs([0xFA, 0xFB, 0xFC]);
      if ret < 0 { return ret, None; }
      var b0: int, b1: int, b2: int := buf[0], buf[1], buf[2];
      var adcT := b0 * 0x1000 + b1 * 0x10 + b2 / 0x10;
      ret, digT := ReadPairs([0x88, 0x89, 0x8A, 0x8B, 0x8C, 0x8D]);
      if ret < 0 { return ret, None; }
      inputs := Some(TempInputs(adcT, Word(digT[0], digT[1]), Word(digT[2], digT[3]), Word(digT[4], digT[5])));
      TempStored(chip, inputs.value);
    }

    /** The temperature read-out: the same value as the one-register driver's, or the bus error. */
    method ReadRawTemp() returns (ret: int, val: Option<int>)
      requires Valid()
      modifies txBuf, ringXfer, rxBuf, this`reports
      ensures ret >= 0 <==> val.Some?
      ensures val.Some? ==> val.value == TempValue(chip)
      ensures val.Some? ==> exists want :: StoresTemp(chip, want)
                                    && val.value == Computed(want.adcT, want.digT1, want.digT2, want.digT3)
      ensures val.Some? <==> forall k :: 0 <= k < 2 && k < |old(reports)| ==> old(reports)[k] >= 0
      ensures val.None? ==> exists k :: 0 <= k < 2 && k < |old(reports)| && ret == old(reports)[k] < 0
                                  && forall j :: 0 <= j < k ==> old(reports)[j] >= 0
    {
      var inputs;
      ret, inputs := ReadTemp();
      val := None;
      if ret >= 0 {
        var TempInputs(adcT, t1, t2, t3) := inputs.value;
        var t, _ := Compensate(adcT, t1, t2, t3);
        val := Some(t);
      }
    }

    /** The inputs of a pressure reading, with the shifted layout this driver uses for the raw value. */
    method ReadPressure() returns (ret: int, inputs: Option<PressureInputs>)
      requires Valid()
      modifies txBuf, ringXfer, rxBuf, this`reports
      ensures ret >= 0 <==> inputs.Some?
      ensures inputs.Some? ==> inputs.value == PressureOf(chip) && StoresPressure(chip, inputs.value)
      ensures inputs.Some? <==> forall k :: 0 <= k < 2 && k < |old(reports)| ==> old(reports)[k] >= 0
      ensures inputs.None? ==> exists k :: 0 <= k < 2 && k < |old(reports)| && ret == old(reports)[k] < 0
                                     && forall j :: 0 <= j < k ==> old(reports)[j] >= 0
    {
      var buf, digP;
      ret, buf := ReadBurst(REG_PRESSURE, 3);
      if ret < 0 { return ret, None; }
      var b0: int, b1: int, b2: int := buf[0], buf[1], buf[2];
      var adcP := (b0 * 0x1_0000 + b1 * 0x100 + b2 / 0x10 * 0x10) / 0x10;
      ret, digP := ReadBurst(DIG_P, 18);
      if ret < 0 { return ret, None; }
      var words := seq(9, i requires 0 <= i < 9 => Word(digP[2 * i], digP[2 * i + 1]));
      inputs := Some(PressureInputs(adcP, words));
      assert words == PressureOf(chip).digP;
      PressureStored(chip, inputs.value);
    }
  }

  /* ---- The driver that reads one register at a time ---- */

  // Write one byte, read one byte, release the chip.
  method W8R8(chip: Chip, addr: byte) returns (b: byte)
    requires chip.Valid()
    ensures b == chip.regs[addr]
  {
    var tx := seq(RX_SIZE, _ => addr);
    b := Message(chip, Selected, [Address(0), Answer(0, 1)], tx, tx)[0];
    BurstReads(chip, 1, tx, tx);
    assert Message(chip, Selected, [Address(0), Answer(0, 1)], tx, tx)[..1][0] == chip.regs[addr..addr as int + 1][0];
  }

  method SimpleReadTemp(chip: Chip) returns (inputs: TempInputs)
    requires chip.Valid()
    ensures inputs == TempOf(chip) && StoresTemp(chip, inputs)
  {
    var b0: int := W8R8(chip, 0xFA);
    var b1: int := W8R8(chip, 0xFB);
    var b2: int := W8R8(chip, 0xFC);
    var t0 := W8R8(chip, 0x88);
    var t1 := W8R8(chip, 0x89);
    var t2 := W8R8(chip, 0x8A);
    var t3 := W8R8(chip, 0x8B);
    var t4 := W8R8(chip, 0x8C);
    var t5 := W8R8(chip, 0x8D);
    var adcT := b0 * 0x1000 + b1 * 0x10 + b2 / 0x10;
    inputs := TempInputs(adcT, Word(t0, t1), Word(t2, t3), Word(t4, t5));
    TempStored(chip, inputs);
  }

  method SimpleReadRawTemp(chip: Chip) returns (val: int)
    requires chip.Valid()
    ensures val == TempValue(chip)
    ensures exists want :: StoresTemp(chip, want)
                        && val == Computed(want.adcT, want.digT1, want.digT2, want.digT3)
  {
    var inputs := SimpleReadTemp(chip);
    var TempInputs(adcT, t1, t2, t3) := inputs;
    var t, _ := Compensate(adcT, t1, t2, t3);
    val := t;
  }

  // Coefficients low..low + 1 of the pressure block.
  method SimpleReadWord(chip: Chip, low: byte) returns (w: u16)
    requires chip.Valid() && low < 255
    ensures w == Word(chip.regs[low], chip.regs[low + 1])
  {
    var a := W8R8(chip, low);
    var b := W8R8(chip, low + 1);
    w := Word(a, b);
  }

  method SimpleReadPressure(chip: Chip) returns (inputs: PressureInputs)
    requires chip.Valid()
    ensures inputs == PressureOf(chip) && StoresPressure(chip, inputs)
  {
    var b0: int := W8R8(chip, 0xF7);
    var b1: int := W8R8(chip, 0xF8);
    var b2: int := W8R8(chip, 0xF9);
    var adcP := b0 * 0x1000 + b1 * 0x10 + b2 / 0x10;
    var p1 := SimpleReadWord(chip, 0x8E);
    var p2 := SimpleReadWord(chip, 0x90);
    var p3 := SimpleReadWord(chip, 0x92);
    var p4 := SimpleReadWord(chip, 0x94);
    var p5 := SimpleReadWord(chip, 0x96);
    var p6 := SimpleReadWord(chip, 0x98);
    var p7 := SimpleReadWord(chip, 0x9A);
    var p8 := SimpleReadWord(chip, 0x9C);
    var p9 := SimpleReadWord(chip, 0x9E);
    inputs := PressureInputs(adcP, [p1, p2, p3, p4, p5, p6, p7, p8, p9]);
    assert inputs.digP == PressureOf(chip).digP;
    PressureStored(chip, inputs);
  }
}
