/**
 * The LoRa node task: a four-state machine (INIT, RX, TX, ERROR) that
 * configures the radio, listens and echoes received packets, and every
 * transmit period sends the text "NODE=<id>,METHANE=<ppm>".
 *
 * One pass of the task's forever-loop is one Step. What a pass observes
 * from outside (the result of the radio init, the packets the radio
 * reports, the tick count) is an `Inputs` value; what it does to the
 * outside (radio driver calls, console lines, delays) is appended to a
 * log of `Event`s. Ticks and the RX loop counter are 32-bit unsigned and
 * wrap around.
 */
module LoraNode {
  import opened DecimalText

  datatype Option<T> = None | Some(value: T)

  const TickModulus: int := 0x1_0000_0000

  newtype u32 = x: int | 0 <= x < 0x1_0000_0000

  /** A `uint8_t`: the radio and the console move bytes. */
  newtype byte = x: int | 0 <= x < 256

  /** `now - last` on unsigned 32-bit ticks: the difference modulo 2^32. */
  function TickDiff(now: u32, last: u32): u32 {
    ((now as int - last as int) % TickModulus) as u32
  }

  /** `c + 1` on an unsigned 32-bit counter. */
  function Inc32(c: u32): u32 {
    ((c as int + 1) % TickModulus) as u32
  }

  // Radio configuration and task constants.
  const FrequencyHz: int := 915000000
  const BandwidthHz: int := 125000
  const SpreadingFactor: int := 7
  const CodingRate: int := 5
  const PreambleLength: int := 8
  const SyncWord: int := 0x34
  const NodeId: int := 1
  const FakeMethanePpm: int := 123
  const RxBufSize: int := 256
  const TxBufSize: int := 64
  const RxPollDelayMs: int := 10
  const ErrorBackoffMs: int := 1000
  const HeartbeatEvery: int := 100

  datatype State = Init | Rx | Tx | Error

  /** Everything a pass of the task does to the world outside it, in order. */
  datatype Event =
    | RadioInit
    | SetFrequency(hz: int)
    | SetBandwidth(hz: int)
    | SetSpreadingFactor(sf: int)
    | SetCodingRate(denominator: int)
    | SetPreambleLength(symbols: int)
    | SetSyncWord(word: int)
    | EnableCrc
    | ReceiveMode
    | SendPacket(payload: seq<byte>)
    | TxEcho(text: seq<byte>)
    | RxEcho(text: seq<byte>)
    | RxEmpty(len: int)
    | RxAlive(loops: u32)
    | Delay(ms: int)

  /** The driver calls that follow a successful radio init. */
  const RadioConfig: seq<Event> := [
    SetFrequency(FrequencyHz), SetBandwidth(BandwidthHz), SetSpreadingFactor(SpreadingFactor),
    SetCodingRate(CodingRate), SetPreambleLength(PreambleLength), SetSyncWord(SyncWord), EnableCrc]

  /**
   * One packet the radio reports while the task polls: the bytes the driver
   * writes into the receive buffer and the length it returns.
   */
  datatype RxPacket = RxPacket(len: int, bytes: seq<byte>)

  /** The driver is told it may write at most 255 bytes (`sizeof(rx_buf) - 1`). */
  predicate WithinDriverMax(p: RxPacket) {
    p.len <= RxBufSize - 1 && |p.bytes| <= RxBufSize - 1
  }

  predicate AllWithinDriverMax(ps: seq<RxPacket>) {
    forall i :: 0 <= i < |ps| ==> WithinDriverMax(ps[i])
  }

  /** What one pass observes: the init result, the packets waiting, the tick count. */
  datatype Inputs = Inputs(initOk: bool, packets: seq<RxPacket>, now: u32)

  /** The task's control variables. */
  datatype Control = Control(state: State, lastTx: u32, loops: u32)

  /** The control state when the task starts. */
  const Start: Control := Control(Init, 0, 0)

  /**
   * One pass of the state machine. ERROR is entered exactly from a failed
   * init and always leads back to INIT; TX is entered exactly from RX once a
   * full period of ticks has passed since the last send; the last-send tick
   * is taken exactly on a successful init and on a send; the loop counter
   * counts RX passes.
   */
  function Next(c: Control, inp: Inputs, period: u32): (r: Control)
    ensures r.state == Error <==> c.state == Init && !inp.initOk
    ensures r.state == Init <==> c.state == Error
    ensures r.state == Tx <==> c.state == Rx && TickDiff(inp.now, c.lastTx) >= period
    ensures r.state == Rx <==> (c.state == Init && inp.initOk) || c.state == Tx ||
                               (c.state == Rx && TickDiff(inp.now, c.lastTx) < period)
    ensures r.lastTx == if (c.state == Init && inp.initOk) || c.state == Tx then inp.now else c.lastTx
    ensures r.loops == if c.state == Rx then Inc32(c.loops) else c.loops
  {
    match c.state
    case Init =>
      if inp.initOk then c.(state := Rx, lastTx := inp.now) else c.(state := Error)
    case Rx =>
      c.(state := if TickDiff(inp.now, c.lastTx) >= period then Tx else Rx, loops := Inc32(c.loops))
    case Tx =>
      c.(state := Rx, lastTx := inp.now)
    case Error =>
      c.(state := Init)
  }

  // ---------------------------------------------------------------------
  // Receive buffer and C strings

  predicate NoNul(s: seq<byte>) {
    forall i :: 0 <= i < |s| ==> s[i] != 0
  }

  /** The string `%s` prints from a byte buffer: everything before the first NUL. */
  function CString(s: seq<byte>): (r: seq<byte>)
    ensures |r| <= |s| && r == s[..|r|] && NoNul(r)
    ensures |r| < |s| ==> s[|r|] == 0
  {
    if s == [] || s[0] == 0 then [] else [s[0]] + CString(s[1..])
  }

  /** The buffer after the driver writes `bytes` at its start. */
  function Fill(buf: seq<byte>, bytes: seq<byte>): (r: seq<byte>)
    requires |bytes| <= |buf|
    ensures |r| == |buf|
  {
    bytes + buf[|bytes|..]
  }

  /** The receive buffer after one packet: the driver's bytes, then a NUL at `len` when `len > 0`. */
  function Deliver(buf: seq<byte>, p: RxPacket): (r: seq<byte>)
    requires |buf| == RxBufSize && WithinDriverMax(p)
    ensures |r| == RxBufSize
  {
    var filled := Fill(buf, p.bytes);
    if p.len > 0 then filled[p.len := 0] else filled
  }

  /**
   * Delivery writes the driver's bytes over the start of the buffer, puts a
   * NUL at `len` when `len > 0`, and leaves every other byte as it was.
   */
  lemma DeliverContents(buf: seq<byte>, p: RxPacket)
    requires |buf| == RxBufSize && WithinDriverMax(p)
    ensures p.len > 0 ==> Deliver(buf, p)[p.len] == 0
    ensures forall i :: 0 <= i < RxBufSize && !(p.len > 0 && i == p.len) ==>
      Deliver(buf, p)[i] == if i < |p.bytes| then p.bytes[i] else buf[i]
  {
  }

  /** The receive buffer after the task has handled `ps` in order. */
  function DrainBuffer(buf: seq<byte>, ps: seq<RxPacket>): (r: seq<byte>)
    requires |buf| == RxBufSize && AllWithinDriverMax(ps)
    ensures |r| == RxBufSize
    decreases |ps|
  {
    if ps == [] then buf else Deliver(DrainBuffer(buf, ps[..|ps| - 1]), ps[|ps| - 1])
  }

  /** What handling one packet does: echo its text (or warn of a non-positive length), then re-arm reception. */
  function PacketEvents(before: seq<byte>, p: RxPacket): (r: seq<Event>)
    requires |before| == RxBufSize && WithinDriverMax(p)
  {
    (if p.len > 0 then [RxEcho(CString(Deliver(before, p)))] else [RxEmpty(p.len)]) + [ReceiveMode]
  }

  /** The events of handling `ps` in order: one report per packet, each followed by a re-arm. */
  function DrainEvents(buf: seq<byte>, ps: seq<RxPacket>): (r: seq<Event>)
    requires |buf| == RxBufSize && AllWithinDriverMax(ps)
    ensures |r| == 2 * |ps|
    decreases |ps|
  {
    if ps == [] then []
    else
      var init := ps[..|ps| - 1];
      DrainEvents(buf, init) + PacketEvents(DrainBuffer(buf, init), ps[|ps| - 1])
  }

  /** Only receive-side events: packet reports and re-arms. */
  predicate ReceiveSide(r: seq<Event>) {
    forall i :: 0 <= i < |r| ==> r[i].ReceiveMode? || r[i].RxEcho? || r[i].RxEmpty?
  }

  /**
   * Handling packets alternates strictly: every even event reports a packet,
   * every odd one re-arms reception, so the radio is put back into receive
   * mode after each packet.
   */
  lemma {:induction false} DrainEventsAlternate(buf: seq<byte>, ps: seq<RxPacket>)
    requires |buf| == RxBufSize && AllWithinDriverMax(ps)
    ensures ReceiveSide(DrainEvents(buf, ps))
    ensures forall i :: 0 <= i < |DrainEvents(buf, ps)| ==> (DrainEvents(buf, ps)[i].ReceiveMode? <==> i % 2 == 1)
    decreases |ps|
  {
    if ps != [] {
      var init := ps[..|ps| - 1];
      DrainEventsAlternate(buf, init);
      var a := DrainEvents(buf, init);
      var b := PacketEvents(DrainBuffer(buf, init), ps[|ps| - 1]);
      assert DrainEvents(buf, ps) == a + b;
      assert |b| == 2 && b[1].ReceiveMode? && !b[0].ReceiveMode?;
    }
  }

  /**
   * A positive-length packet without NUL bytes, whose length the driver
   * reports truthfully, is echoed exactly as received.
   */
  lemma {:induction false} RxEchoIsPacket(buf: seq<byte>, p: RxPacket)
    requires |buf| == RxBufSize && WithinDriverMax(p)
    requires 0 < p.len == |p.bytes| && NoNul(p.bytes)
    ensures CString(Deliver(buf, p)) == p.bytes
  {
    DeliverContents(buf, p);
    var s := Deliver(buf, p);
    var r := CString(s);
    assert |r| == p.len;
  }

  /** Whatever the driver wrote, the echo never reads past the terminator at `len`. */
  lemma {:induction false} RxEchoBounded(buf: seq<byte>, p: RxPacket)
    requires |buf| == RxBufSize && WithinDriverMax(p) && p.len > 0
    ensures |CString(Deliver(buf, p))| <= p.len
  {
    DeliverContents(buf, p);
  }

  // ---------------------------------------------------------------------
  // Transmit payload

  predicate PrintableAscii(s: string) {
    forall i :: 0 <= i < |s| ==> ' ' <= s[i] <= '~'
  }

  /** The text `snprintf` formats from "NODE=%d,METHANE=%d". */
  function TxText(nodeId: int, ppm: int): (s: string)
    ensures PrintableAscii(s)
    ensures |s| == 14 + |IntText(nodeId)| + |IntText(ppm)|
  {
    "NODE=" + IntText(nodeId) + ",METHANE=" + IntText(ppm)
  }

  /** The bytes of an ASCII string. */
  function AsciiBytes(s: string): (b: seq<byte>)
    requires PrintableAscii(s)
    ensures |b| == |s| && NoNul(b)
    ensures forall i :: 0 <= i < |s| ==> b[i] as int == s[i] as int
  {
    seq(|s|, i requires 0 <= i < |s| => s[i] as int as byte)
  }

  /**
   * The contents of a `size`-byte buffer after `snprintf` writes `text`
   * into it: as much of the text as fits before a terminating NUL.
   */
  function SnprintfInto(text: seq<byte>, size: nat): (buf: seq<byte>)
    requires 1 <= size
    ensures 1 <= |buf| <= size && buf[|buf| - 1] == 0
    ensures buf[..|buf| - 1] == if |text| < size then text else text[..size - 1]
  {
    var n := if |text| < size then |text| else size - 1;
    text[..n] + [0]
  }

  /** The length clamp applied to `snprintf`'s result: into [0, size]. */
  function ClampLength(len: int, size: nat): (r: int)
    ensures 0 <= r <= size
    ensures 0 <= len <= size ==> r == len
    ensures len < 0 ==> r == 0
    ensures len > size ==> r == size
  {
    var n := if len < 0 then 0 else len;
    if n > size then size else n
  }

  /**
   * What the TX state hands to the radio for a formatted text: nothing for
   * an empty text, the whole text when it fits the 64-byte buffer, and
   * otherwise the 63 bytes that fit followed by the terminating NUL (the
   * clamp is to the buffer size, not to the text that fits).
   */
  function SentBytes(text: seq<byte>): (sent: Option<seq<byte>>)
    ensures sent.None? <==> |text| == 0
    ensures 0 < |text| < TxBufSize ==> sent == Some(text)
    ensures |text| >= TxBufSize ==> sent == Some(text[..TxBufSize - 1] + [0])
  {
    var buf := SnprintfInto(text, TxBufSize);
    var len := ClampLength(|text|, TxBufSize);
    assert |text| >= TxBufSize ==> buf[..len] == buf;
    if len > 0 then Some(buf[..len]) else None
  }

  /** For any two 32-bit arguments the formatted text fits the buffer, so it is sent whole. */
  lemma TxTextSentWhole(nodeId: int, ppm: int)
    requires -0x8000_0000 <= nodeId < 0x8000_0000 && -0x8000_0000 <= ppm < 0x8000_0000
    ensures |TxText(nodeId, ppm)| <= 36
    ensures SentBytes(AsciiBytes(TxText(nodeId, ppm))) == Some(AsciiBytes(TxText(nodeId, ppm)))
  {
    Int32TextLength(nodeId);
    Int32TextLength(ppm);
  }

  /** The payload this node sends. */
  const Payload: string := "NODE=1,METHANE=123"

  lemma NodePayload()
    ensures TxText(NodeId, FakeMethanePpm) == Payload && |Payload| == 18
  {
  }

  /** Bytes of a NUL-free text print as themselves. */
  lemma CStringOfNulFree(s: seq<byte>)
    requires NoNul(s)
    ensures CString(s) == s
  {
  }

  // ---------------------------------------------------------------------
  // One pass, as events

  /** Some event of `r` hands a packet to the radio. */
  predicate Sends(r: seq<Event>) {
    exists i :: 0 <= i < |r| && r[i].SendPacket?
  }

  /** Some event of `r` is the RX heartbeat. */
  predicate Heartbeats(r: seq<Event>) {
    exists i :: 0 <= i < |r| && r[i].RxAlive?
  }

  lemma {:induction false} EventsAppend(a: seq<Event>, b: seq<Event>)
    ensures Sends(a + b) <==> Sends(a) || Sends(b)
    ensures Heartbeats(a + b) <==> Heartbeats(a) || Heartbeats(b)
  {
    var r := a + b;
    if Sends(r) {
      var i :| 0 <= i < |r| && r[i].SendPacket?;
      if i >= |a| {
        assert b[i - |a|] == r[i];
      }
    }
    if Sends(a) {
      var i :| 0 <= i < |a| && a[i].SendPacket?;
      assert r[i] == a[i];
    }
    if Sends(b) {
      var i :| 0 <= i < |b| && b[i].SendPacket?;
      assert r[|a| + i] == b[i];
    }
    if Heartbeats(r) {
      var i :| 0 <= i < |r| && r[i].RxAlive?;
      if i >= |a| {
        assert b[i - |a|] == r[i];
      }
    }
    if Heartbeats(a) {
      var i :| 0 <= i < |a| && a[i].RxAlive?;
      assert r[i] == a[i];
    }
    if Heartbeats(b) {
      var i :| 0 <= i < |b| && b[i].RxAlive?;
      assert r[|a| + i] == b[i];
    }
  }

  /**
   * The events of an RX pass whose incremented loop counter is `loops`:
   * the heartbeat every hundredth pass, receive mode, each waiting packet,
   * then the 10 ms poll delay.
   */
  function RxPassEvents(loops: u32, buf: seq<byte>, packets: seq<RxPacket>): seq<Event>
    requires |buf| == RxBufSize && AllWithinDriverMax(packets)
  {
    HeartbeatEvents(loops) + [ReceiveMode] + DrainEvents(buf, packets) + [Delay(RxPollDelayMs)]
  }

  /** The "RX loop alive" line, on every hundredth value of the loop counter. */
  function HeartbeatEvents(loops: u32): seq<Event> {
    if loops as int % HeartbeatEvery == 0 then [RxAlive(loops)] else []
  }

  /** The events of a TX pass: the formatted text goes to the radio and is echoed with `%.*s`. */
  function TxPassEvents(): seq<Event> {
    match SentBytes(AsciiBytes(TxText(NodeId, FakeMethanePpm)))
    case Some(sent) => [SendPacket(sent), TxEcho(CString(sent))]
    case None => []
  }

  /** The events of an INIT pass: the init call, then the seven configuration calls when it succeeds. */
  function InitPassEvents(initOk: bool): seq<Event> {
    [RadioInit] + (if initOk then RadioConfig else [])
  }

  /** The events of one pass from control state `c`, with `buf` the receive buffer before it. */
  function StepEvents(c: Control, buf: seq<byte>, inp: Inputs): seq<Event>
    requires |buf| == RxBufSize && AllWithinDriverMax(inp.packets)
  {
    match c.state
    case Init => InitPassEvents(inp.initOk)
    case Rx => RxPassEvents(Inc32(c.loops), buf, inp.packets)
    case Tx => TxPassEvents()
    case Error => [Delay(ErrorBackoffMs)]
  }

  /** An RX pass sends nothing, ends with the poll delay, and beats the heartbeat every hundredth time. */
  lemma {:induction false} RxPassShape(loops: u32, buf: seq<byte>, packets: seq<RxPacket>)
    requires |buf| == RxBufSize && AllWithinDriverMax(packets)
    ensures var r := RxPassEvents(loops, buf, packets);
      && r[|r| - 1] == Delay(RxPollDelayMs)
      && !Sends(r)
      && (Heartbeats(r) <==> loops as int % HeartbeatEvery == 0)
  {
    var alive := HeartbeatEvents(loops);
    var drained := DrainEvents(buf, packets);
    DrainEventsAlternate(buf, packets);
    assert !Sends(drained) && !Heartbeats(drained);
    EventsAppend(alive, [ReceiveMode]);
    EventsAppend(alive + [ReceiveMode], drained);
    EventsAppend(alive + [ReceiveMode] + drained, [Delay(RxPollDelayMs)]);
    assert |alive| == 1 ==> alive[0].RxAlive?;
  }

  /** A TX pass hands the node's whole text to the radio and echoes exactly that text. */
  lemma TxPassSendsText()
    ensures var b := AsciiBytes(TxText(NodeId, FakeMethanePpm)); TxPassEvents() == [SendPacket(b), TxEcho(b)]
  {
    var text := AsciiBytes(TxText(NodeId, FakeMethanePpm));
    TxTextSentWhole(NodeId, FakeMethanePpm);
    CStringOfNulFree(text);
  }

  /**
   * Across the four states: a packet is sent exactly in the TX state, the
   * heartbeat appears exactly on every hundredth RX pass, INIT starts with
   * the init call and configures the radio exactly when it succeeds, ERROR
   * only backs off.
   */
  lemma {:induction false} StepEventsShape(c: Control, buf: seq<byte>, inp: Inputs)
    requires |buf| == RxBufSize && AllWithinDriverMax(inp.packets)
    ensures Sends(StepEvents(c, buf, inp)) <==> c.state == Tx
    ensures Heartbeats(StepEvents(c, buf, inp)) <==> c.state == Rx && Inc32(c.loops) as int % HeartbeatEvery == 0
    ensures c.state == Init ==>
      StepEvents(c, buf, inp)[0] == RadioInit && (StepEvents(c, buf, inp)[1..] == RadioConfig <==> inp.initOk)
    ensures c.state == Error ==> StepEvents(c, buf, inp) == [Delay(ErrorBackoffMs)]
  {
    var r := StepEvents(c, buf, inp);
    match c.state
    case Init =>
      assert forall i :: 0 <= i < |r| ==> r[i] == RadioInit || r[i] in RadioConfig;
      assert RadioConfig != [];
    case Rx =>
      RxPassShape(Inc32(c.loops), buf, inp.packets);
    case Tx =>
      TxPassSendsText();
      assert r[0].SendPacket?;
    case Error =>
  }

  // ---------------------------------------------------------------------
  // Time

  /**
   * Read from real (unwrapped) times t0 <= t1, the wrapped tick difference
   * is the elapsed time modulo 2^32, and never more than the elapsed time.
   */
  lemma {:induction false} TickDiffOfTimes(t0: int, t1: int)
    requires t0 <= t1
    ensures TickDiff((t1 % TickModulus) as u32, (t0 % TickModulus) as u32) as int == (t1 - t0) % TickModulus
    ensures TickDiff((t1 % TickModulus) as u32, (t0 % TickModulus) as u32) as int <= t1 - t0
  {
    var a, b := t1 % TickModulus, t0 % TickModulus;
    var q1, q0 := t1 / TickModulus, t0 / TickModulus;
    assert t1 - t0 == (q1 - q0) * TickModulus + (a - b);
    ModShift(a - b, q1 - q0);
  }

  lemma ModShift(x: int, k: int)
    ensures (k * TickModulus + x) % TickModulus == x % TickModulus
  {
    var q := x / TickModulus;
    var r := x % TickModulus;
    assert k * TickModulus + x == (k + q) * TickModulus + r;
  }

  /**
   * Across a wrap of the tick counter, the RX decision still compares the
   * real time since the last send with the period, as long as less than
   * 2^32 ticks have passed.
   */
  lemma RxDecisionAcrossWrap(c: Control, inp: Inputs, period: u32, t0: int, t1: int)
    requires c.state == Rx && c.lastTx as int == t0 % TickModulus && inp.now as int == t1 % TickModulus
    requires t0 <= t1 < t0 + TickModulus
    ensures Next(c, inp, period).state == Tx <==> t1 - t0 >= period as int
  {
    TickDiffOfTimes(t0, t1);
    assert (t1 - t0) % TickModulus == t1 - t0;
  }

  // ---------------------------------------------------------------------
  // Runs of many passes

  function Run(c: Control, ins: seq<Inputs>, period: u32): Control
    decreases |ins|
  {
    if ins == [] then c else Run(Next(c, ins[0], period), ins[1..], period)
  }

  /** Number of passes made in the RX state. */
  function RxPasses(c: Control, ins: seq<Inputs>, period: u32): nat
    decreases |ins|
  {
    if ins == [] then 0
    else (if c.state == Rx then 1 else 0) + RxPasses(Next(c, ins[0], period), ins[1..], period)
  }

  /** The RX loop counter counts RX passes, modulo 2^32. */
  lemma {:induction false} LoopCounterCountsRxPasses(c: Control, ins: seq<Inputs>, period: u32)
    ensures Run(c, ins, period).loops as int == (c.loops as int + RxPasses(c, ins, period)) % TickModulus
    decreases |ins|
  {
    if ins != [] {
      var c' := Next(c, ins[0], period);
      LoopCounterCountsRxPasses(c', ins[1..], period);
      var k := RxPasses(c', ins[1..], period);
      if c.state == Rx {
        var q := (c.loops as int + 1) / TickModulus;
        assert c'.loops as int == c.loops as int + 1 - q * TickModulus;
        ModShift(c.loops as int + 1 + k, -q);
      }
    }
  }

  /** Once configured, the task never leaves RX and TX again. */
  lemma {:induction false} ConfiguredStaysOperating(c: Control, ins: seq<Inputs>, period: u32)
    requires c.state == Rx || c.state == Tx
    ensures Run(c, ins, period).state == Rx || Run(c, ins, period).state == Tx
    decreases |ins|
  {
    if ins != [] {
      ConfiguredStaysOperating(Next(c, ins[0], period), ins[1..], period);
    }
  }

  /**
   * `times` are the real (unwrapped) tick counts at which the passes read
   * the clock: never decreasing, and seen by the task modulo 2^32.
   */
  predicate Timeline(ins: seq<Inputs>, times: seq<int>) {
    && |times| == |ins|
    && (forall i :: 0 <= i < |ins| ==> ins[i].now as int == times[i] % TickModulus)
    && (forall i, j :: 0 <= i <= j < |times| ==> times[i] <= times[j])
  }

  /** The real times of the passes that send a packet. */
  function SendTimes(c: Control, ins: seq<Inputs>, times: seq<int>, period: u32): seq<int>
    requires |times| == |ins|
    decreases |ins|
  {
    if ins == [] then []
    else (if c.state == Tx then [times[0]] else []) + SendTimes(Next(c, ins[0], period), ins[1..], times[1..], period)
  }

  predicate Spaced(s: seq<int>, gap: int) {
    forall i, j :: 0 <= i < j < |s| ==> s[j] - s[i] >= gap
  }

  /**
   * Every send comes at least a period after the anchor (the real time of
   * the last send or of the successful init) and sends are a period apart.
   */
  lemma {:induction false} SendsFollowAnchor(c: Control, ins: seq<Inputs>, times: seq<int>, period: u32, anchor: int)
    requires Timeline(ins, times)
    requires |ins| > 0 ==> anchor <= times[0]
    requires (c.state == Rx || c.state == Tx) ==> c.lastTx as int == anchor % TickModulus
    requires c.state == Tx && |ins| > 0 ==> times[0] - anchor >= period as int
    ensures forall t :: t in SendTimes(c, ins, times, period) ==> t >= anchor + period as int
    ensures Spaced(SendTimes(c, ins, times, period), period as int)
    decreases |ins|
  {
    if ins != [] {
      var c' := Next(c, ins[0], period);
      var ins', times' := ins[1..], times[1..];
      assert Timeline(ins', times');
      var anchor' := if (c.state == Init && ins[0].initOk) || c.state == Tx then times[0] else anchor;
      if c.state == Rx && c'.state == Tx {
        TickDiffOfTimes(anchor, times[0]);
      }
      if |ins'| > 0 {
        assert times[0] <= times'[0];
      }
      SendsFollowAnchor(c', ins', times', period, anchor');
      var rest := SendTimes(c', ins', times', period);
      var all := SendTimes(c, ins, times, period);
      if c.state == Tx {
        assert all == [times[0]] + rest;
        forall i, j | 0 <= i < j < |all|
          ensures all[j] - all[i] >= period as int
        {
          assert all[j] == rest[j - 1];
          assert rest[j - 1] in rest;
          if i > 0 {
            assert all[i] == rest[i - 1];
          }
        }
      } else {
        assert all == rest;
      }
    }
  }

  /**
   * From start-up (INIT) or after an error, consecutive packets are sent at
   * least one transmit period apart in real time, even when the 32-bit tick
   * counter wraps in between.
   */
  lemma TransmissionsSpaced(c: Control, ins: seq<Inputs>, times: seq<int>, period: u32)
    requires Timeline(ins, times) && (c.state == Init || c.state == Error)
    ensures Spaced(SendTimes(c, ins, times, period), period as int)
  {
    if ins == [] {
    } else {
      SendsFollowAnchor(c, ins, times, period, times[0]);
    }
  }

  // ---------------------------------------------------------------------
  // The task

  /** Handling one more packet extends the drained buffer and events by that packet. */
  lemma DrainOneMore(buf: seq<byte>, ps: seq<RxPacket>, i: int)
    requires |buf| == RxBufSize && AllWithinDriverMax(ps) && 0 <= i < |ps|
    ensures DrainBuffer(buf, ps[..i + 1]) == Deliver(DrainBuffer(buf, ps[..i]), ps[i])
    ensures DrainEvents(buf, ps[..i + 1]) == DrainEvents(buf, ps[..i]) + PacketEvents(DrainBuffer(buf, ps[..i]), ps[i])
  {
    assert ps[..i + 1][..i] == ps[..i];
  }

  lemma Regroup<T>(a: seq<T>, b: seq<T>, c: seq<T>, d: seq<T>)
    ensures a + b + c + d == a + (b + (c + d))
  {
  }

  lemma Regroup5<T>(a: seq<T>, b: seq<T>, c: seq<T>, d: seq<T>, e: seq<T>)
    ensures a + b + c + d + e == a + (b + c + d + e)
  {
  }

  class LoraTask {
    const periodTicks: u32
    const rxBuf: array<byte>
    var state: State
    var lastTxTick: u32
    var rxLoopCounter: u32
    var radioLog: seq<Event>

    ghost predicate Valid()
      reads this
    {
      rxBuf.Length == RxBufSize
    }

    function View(): Control
      reads this
    {
      Control(state, lastTxTick, rxLoopCounter)
    }

    constructor (periodTicks: u32)
      ensures Valid() && fresh(rxBuf)
      ensures this.periodTicks == periodTicks && View() == Start && radioLog == []
    {
      this.periodTicks := periodTicks;
      rxBuf := new byte[RxBufSize];
      state := Init;
      lastTxTick := 0;
      rxLoopCounter := 0;
      radioLog := [];
    }

    /** The driver writes a packet's bytes into the receive buffer and returns its length. */
    method ReceivePacket(p: RxPacket) returns (len: int)
      requires Valid() && WithinDriverMax(p)
      modifies rxBuf
      ensures len == p.len
      ensures rxBuf[..] == Fill(old(rxBuf[..]), p.bytes)
    {
      forall i | 0 <= i < |p.bytes| {
        rxBuf[i] := p.bytes[i];
      }
      assert rxBuf[..] == Fill(old(rxBuf[..]), p.bytes);
      len := p.len;
    }

    /** The packet loop of the RX state: handle every packet the radio reports, in order. */
    method DrainPackets(packets: seq<RxPacket>)
      requires Valid() && AllWithinDriverMax(packets)
      modifies this`radioLog, rxBuf
      ensures rxBuf[..] == DrainBuffer(old(rxBuf[..]), packets)
      ensures radioLog == old(radioLog) + DrainEvents(old(rxBuf[..]), packets)
    {
      var i := 0;
      while i < |packets|
        invariant 0 <= i <= |packets|
        invariant rxBuf[..] == DrainBuffer(old(rxBuf[..]), packets[..i])
        invariant radioLog == old(radioLog) + DrainEvents(old(rxBuf[..]), packets[..i])
      {
        DrainOneMore(old(rxBuf[..]), packets, i);
        ghost var logBefore := radioLog;
        var before := rxBuf[..];
        var len := ReceivePacket(packets[i]);
        ghost var report: Event;
        if len > 0 {
          rxBuf[len] := 0;
          assert rxBuf[..] == Fill(before, packets[i].bytes)[len := 0];
          report := RxEcho(CString(rxBuf[..]));
          radioLog := radioLog + [RxEcho(CString(rxBuf[..]))];
        } else {
          report := RxEmpty(len);
          radioLog := radioLog + [RxEmpty(len)];
        }
        radioLog := radioLog + [ReceiveMode];
        Regroup(old(radioLog), DrainEvents(old(rxBuf[..]), packets[..i]), [report], [ReceiveMode]);
        i := i + 1;
      }
      assert packets[..i] == packets;
    }

    method InitPass(inp: Inputs)
      requires Valid() && state == Init
      modifies this`radioLog, this`lastTxTick, this`state
      ensures View() == Next(old(View()), inp, periodTicks)
      ensures radioLog == old(radioLog) + InitPassEvents(inp.initOk)
    {
      radioLog := radioLog + [RadioInit];
      if !inp.initOk {
        state := Error;
        return;
      }
      radioLog := radioLog + [SetFrequency(FrequencyHz)];
      radioLog := radioLog + [SetBandwidth(BandwidthHz)];
      radioLog := radioLog + [SetSpreadingFactor(SpreadingFactor)];
      radioLog := radioLog + [SetCodingRate(CodingRate)];
      radioLog := radioLog + [SetPreambleLength(PreambleLength)];
      radioLog := radioLog + [SetSyncWord(SyncWord)];
      radioLog := radioLog + [EnableCrc];
      lastTxTick := inp.now;
      state := Rx;
    }

    /** Count one more RX pass and, every hundredth one, log that the loop is alive. */
    method CountRxPass()
      modifies this`rxLoopCounter, this`radioLog
      ensures rxLoopCounter == Inc32(old(rxLoopCounter))
      ensures radioLog == old(radioLog) + HeartbeatEvents(rxLoopCounter)
    {
      rxLoopCounter := Inc32(rxLoopCounter);
      if rxLoopCounter as int % HeartbeatEvery == 0 {
        radioLog := radioLog + [RxAlive(rxLoopCounter)];
      }
    }

    method RxPass(inp: Inputs)
      requires Valid() && state == Rx && AllWithinDriverMax(inp.packets)
      modifies this`state, this`rxLoopCounter, this`radioLog, rxBuf
      ensures View() == Next(old(View()), inp, periodTicks)
      ensures radioLog == old(radioLog) + RxPassEvents(Inc32(old(rxLoopCounter)), old(rxBuf[..]), inp.packets)
      ensures rxBuf[..] == DrainBuffer(old(rxBuf[..]), inp.packets)
    {
      CountRxPass();
      radioLog := radioLog + [ReceiveMode];
      DrainPackets(inp.packets);
      var diff := TickDiff(inp.now, lastTxTick);
      if diff >= periodTicks {
        state := Tx;
      }
      radioLog := radioLog + [Delay(RxPollDelayMs)];
      Regroup5(old(radioLog), HeartbeatEvents(rxLoopCounter), [ReceiveMode], DrainEvents(old(rxBuf[..]), inp.packets), [Delay(RxPollDelayMs)]);
    }

    method TxPass(inp: Inputs)
      requires Valid() && state == Tx
      modifies this`radioLog, this`lastTxTick, this`state
      ensures View() == Next(old(View()), inp, periodTicks)
      ensures radioLog == old(radioLog) + TxPassEvents()
    {
      var text := AsciiBytes(TxText(NodeId, FakeMethanePpm));
      var txBuf := SnprintfInto(text, TxBufSize);
      var len := ClampLength(|text|, TxBufSize);
      assert SentBytes(text) == if len > 0 then Some(txBuf[..len]) else None;
      if len > 0 {
        radioLog := radioLog + [SendPacket(txBuf[..len])];
        radioLog := radioLog + [TxEcho(CString(txBuf[..len]))];
      }
      lastTxTick := inp.now;
      state := Rx;
    }

    method ErrorPass(inp: Inputs)
      requires Valid() && state == Error
      modifies this`radioLog, this`state
      ensures View() == Next(old(View()), inp, periodTicks)
      ensures radioLog == old(radioLog) + [Delay(ErrorBackoffMs)]
    {
      radioLog := radioLog + [Delay(ErrorBackoffMs)];
      state := Init;
    }

    /** One pass of the task's forever-loop. */
    method Step(inp: Inputs)
      requires Valid() && AllWithinDriverMax(inp.packets)
      modifies this, rxBuf
      ensures View() == Next(old(View()), inp, periodTicks)
      ensures radioLog == old(radioLog) + StepEvents(old(View()), old(rxBuf[..]), inp)
      ensures rxBuf[..] == if old(state) == Rx then DrainBuffer(old(rxBuf[..]), inp.packets) else old(rxBuf[..])
    {
      match state
      case Init => InitPass(inp);
      case Rx => RxPass(inp);
      case Tx => TxPass(inp);
      case Error => ErrorPass(inp);
    }
  }
}
