/**
 * The line-level semantics of the ISP transport: what the driver does to the
 * clock (SCL) and data (SDA) lines for each framing and byte operation, and
 * what it returns, as functions of what the lines answer.
 *
 * Both lines are open-drain: "high" means switched to input and pulled up,
 * "low" means driven to 0.  Framing follows the I2C-bus conventions of NXP
 * UM10204 (section 3.1.4 START/STOP, 3.1.5 MSB-first bytes, 3.1.6 ACK/NACK,
 * 3.1.9 clock stretching).
 */
module Wire {
  import opened Bits

  const ETIMEDOUT := 110
  const EIO := 5

  /** `isp_sendbyte` returns this when the receiver pulled SDA low after the byte. */
  const ISP_ACK := 1

  /** One thing the driver does on the lines. */
  datatype LineEvent =
    | Sda(high: bool)                     // setsda: release (input) or drive low
    | Scl(high: bool)                     // setscl
    | ClockWait(precise: bool, rose: bool) // the poll in sclhi: iteration-bounded policy on or off, SCL seen high in time or not
    | SdaSample(high: bool)               // getsda
    | Hold(us: nat)                       // a fixed busy-wait of the mode-entry pulse train

  /**
   * What the lines answer: whether the n-th wait for SCL to go high sees it
   * rise before the deadline, and the level the n-th sample of SDA reads.
   */
  datatype Env = Env(rises: nat -> bool, levels: nat -> bool)

  /** The result of an operation, the events it caused and the wait and sample counters after it. */
  datatype Step<T> = Step(out: T, events: seq<LineEvent>, waits: nat, samples: nat)

  /** Outcome of `isp_master_recv`: the address byte was never acknowledged, or `isp_recvdbyte` returned raw. */
  datatype Recv = Nak | Got(raw: int)

  /** The SDA levels read by samples s, s+1, ..., s+k-1. */
  function Levels(e: Env, s: nat, k: nat): seq<bool>
  {
    seq(k, j requires 0 <= j < k => e.levels(s + j))
  }

  /** What one event contributes to a projection of the trace. */
  function SdaDriven(x: LineEvent): seq<bool> { if x.Sda? then [x.high] else [] }
  function SclDriven(x: LineEvent): seq<bool> { if x.Scl? then [x.high] else [] }
  function SdaSampled(x: LineEvent): seq<bool> { if x.SdaSample? then [x.high] else [] }

  /** The clock-wait policy of an event: whether the iteration bound was on. */
  function WaitPolicy(x: LineEvent): seq<bool> { if x.ClockWait? then [x.precise] else [] }
  function LongHold(x: LineEvent): seq<bool> { if x == Hold(30) then [true] else [] }

  /** What an event trace contributes to a projection, in order. */
  function Project<U>(ev: seq<LineEvent>, f: LineEvent -> seq<U>): seq<U>
  {
    if ev == [] then [] else f(ev[0]) + Project(ev[1..], f)
  }

  /** The SDA levels the driver drives, in order. */
  function DrivenSda(ev: seq<LineEvent>): seq<bool> { Project(ev, SdaDriven) }

  /** The SCL levels the driver drives, in order. */
  function DrivenScl(ev: seq<LineEvent>): seq<bool> { Project(ev, SclDriven) }

  /** The SDA levels the driver samples, in order. */
  function Sampled(ev: seq<LineEvent>): seq<bool> { Project(ev, SdaSampled) }

  // ---------------------------------------------------------------- framing

  /** `isp_start`: SDA falls while SCL is high, then SCL goes low. */
  const StartEvents: seq<LineEvent> := [Sda(false), Scl(false)]

  /** `isp_stop`: SDA low, wait for SCL high (result ignored), then SDA rises. */
  function StopEvents(rose: bool, p: bool): seq<LineEvent>
  {
    [Sda(false), Scl(true), ClockWait(p, rose), Sda(true)]
  }

  // ---------------------------------------------------------------- entering programming mode

  /** TC360_ISP_SP_SIGNAL, 0b010101011111000, sent in TC360_NUM_OF_ISP_SP_SIGNAL = 15 bits. */
  const SP_SIGNAL := 0x2AF8
  const SP_BITS := 15

  /**
   * The pulse for bit i of the signal: SCL to the bit, then a low-high pulse
   * on SDA, with the fixed holds in microseconds; after bit 5 the line is
   * held 30 µs more.
   */
  function PulseEvents(i: nat): seq<LineEvent>
  {
    [Scl(Bit(SP_SIGNAL, i)), Hold(3), Sda(false), Hold(10)] + [Sda(true), Hold(10)] + (if i == 5 then [Hold(30)] else [])
  }

  /** The pulses for bits i, i-1, ..., 0, then one clock wait made with `counting_timer` set. */
  function SpTrain(i: int, rose: bool): seq<LineEvent>
    requires i < SP_BITS
    decreases i + 1
  {
    if i < 0 then [Scl(true), ClockWait(true, rose)] else PulseEvents(i) + SpTrain(i - 1, rose)
  }

  /** `isp_sp_signal`: the fifteen pulses, bit 14 first, then the clock wait. */
  function SpSignalEvents(rose: bool): seq<LineEvent>
  {
    SpTrain(SP_BITS - 1, rose)
  }

  // ---------------------------------------------------------------- sending a byte

  /** One bit out: SDA to the bit, then SCL released; SCL goes low again only if it rose in time. */
  function BitOut(bit: bool, p: bool, rose: bool): seq<LineEvent>
  {
    if rose then [Sda(bit), Scl(true), ClockWait(p, true), Scl(false)]
    else [Sda(bit), Scl(true), ClockWait(p, false)]
  }

  /** Bits i, i-1, ..., 0 of c from wait n; false as soon as SCL does not rise. */
  function SendBits(e: Env, c: byte, i: int, n: nat, s: nat, p: bool): Step<bool>
    requires i < 8
    decreases i + 1
  {
    if i < 0 then Step(true, [], n, s)
    else if !e.rises(n) then Step(false, BitOut(Bit(c, i), p, false), n + 1, s)
    else
      var rest := SendBits(e, c, i - 1, n + 1, s, p);
      Step(rest.out, BitOut(Bit(c, i), p, true) + rest.events, rest.waits, rest.samples)
  }

  /**
   * `isp_sendbyte(c)` starting at wait n and sample s with the
   * `counting_timer` flag p: bits 7 down to 0, then SDA released and the
   * acknowledge clocked in.  A clock wait that times out ends it with
   * -ETIMEDOUT; otherwise it returns 1 (ISP_ACK) when SDA was sampled low
   * and 0 when high.
   */
  function SendByteStep(e: Env, c: byte, n: nat, s: nat, p: bool): Step<int>
  {
    var b := SendBits(e, c, 7, n, s, p);
    if !b.out then Step(-ETIMEDOUT, b.events, b.waits, b.samples)
    else if !e.rises(b.waits) then
      Step(-ETIMEDOUT, b.events + AckEvents(p, false, false), b.waits + 1, b.samples)
    else
      var high := e.levels(b.samples);
      Step(if high then 0 else ISP_ACK, b.events + AckEvents(p, true, high), b.waits + 1, b.samples + 1)
  }

  /** The acknowledge clock: SDA released, SCL released, SDA sampled and SCL low again if SCL rose. */
  function AckEvents(p: bool, rose: bool, high: bool): seq<LineEvent>
  {
    if rose then [Sda(true), Scl(true), ClockWait(p, true), SdaSample(high), Scl(false)]
    else [Sda(true), Scl(true), ClockWait(p, false)]
  }

  // ---------------------------------------------------------------- receiving a byte

  /** One bit in: SCL released, SDA sampled and SCL low again, or only the failed wait. */
  function BitIn(p: bool, rose: bool, high: bool): seq<LineEvent>
  {
    if rose then [Scl(true), ClockWait(p, true), SdaSample(high), Scl(false)]
    else [Scl(true), ClockWait(p, false)]
  }

  /** `acc <<= 1`, then `acc |= 1` when the bit is high, on a u8. */
  function ShiftIn(acc: byte, bit: bool): byte
  {
    (acc * 2 + (if bit then 1 else 0)) % 0x100
  }

  /**
   * k more bits shifted into the u8 accumulator acc, from wait n and
   * sample s: `acc = acc << 1`, then `acc |= 1` when SDA reads high;
   * -ETIMEDOUT as soon as SCL does not rise.
   */
  function RecvBits(e: Env, k: nat, acc: byte, n: nat, s: nat, p: bool): Step<int>
    decreases k
  {
    if k == 0 then Step(acc, [], n, s)
    else if !e.rises(n) then Step(-ETIMEDOUT, BitIn(p, false, false), n + 1, s)
    else
      var high := e.levels(s);
      var rest := RecvBits(e, k - 1, ShiftIn(acc, high), n + 1, s + 1, p);
      Step(rest.out, BitIn(p, true, high) + rest.events, rest.waits, rest.samples)
  }

  /** `isp_recvdbyte`: SDA released once, then eight bits into a u8 starting from 0. */
  function RecvByteStep(e: Env, n: nat, s: nat, p: bool): Step<int>
  {
    var b := RecvBits(e, 8, 0, n, s, p);
    Step(b.out, [Sda(true)] + b.events, b.waits, b.samples)
  }

  // ---------------------------------------------------------------- register transactions

  /**
   * The `goto retry` discipline shared by `isp_master_send` and
   * `isp_master_recv`, with `retries` retries left: an attempt that fails is
   * repeated from START while retries remain; `finish` runs after the first
   * attempt that succeeds; when none does, the result is `fail`.
   */
  function Retry<T>(attempt: (nat, nat) -> Step<bool>, finish: (nat, nat) -> Step<T>, fail: T,
                    n: nat, s: nat, retries: nat): Step<T>
    decreases retries
  {
    var a := attempt(n, s);
    if a.out then
      var f := finish(a.waits, a.samples);
      Step(f.out, a.events + f.events, f.waits, f.samples)
    else if retries > 0 then
      var rest := Retry(attempt, finish, fail, a.waits, a.samples, retries - 1);
      Step(rest.out, a.events + rest.events, rest.waits, rest.samples)
    else Step(fail, a.events, a.waits, a.samples)
  }

  /** The k-th attempt (from 0) of a retry loop whose earlier attempts all failed. */
  function AttemptAt(attempt: (nat, nat) -> Step<bool>, n: nat, s: nat, k: nat): Step<bool>
    decreases k
  {
    var a := attempt(n, s);
    if k == 0 then a else AttemptAt(attempt, a.waits, a.samples, k - 1)
  }

  /** How many attempts a retry loop makes. */
  function AttemptsMade(attempt: (nat, nat) -> Step<bool>, n: nat, s: nat, retries: nat): nat
    decreases retries
  {
    var a := attempt(n, s);
    if a.out || retries == 0 then 1 else 1 + AttemptsMade(attempt, a.waits, a.samples, retries - 1)
  }

  /** One framed attempt of `isp_master_send`: START, the first byte and, if acknowledged, the second. */
  function SendAttempt(e: Env, m1: byte, m2: byte, n: nat, s: nat, p: bool): Step<bool>
  {
    var b1 := SendByteStep(e, m1, n, s, p);
    if b1.out != ISP_ACK then Step(false, StartEvents + b1.events, b1.waits, b1.samples)
    else
      var b2 := SendByteStep(e, m2, b1.waits, b1.samples, p);
      Step(b2.out == ISP_ACK, StartEvents + b1.events + b2.events, b2.waits, b2.samples)
  }

  function SendTry(e: Env, m1: byte, m2: byte, p: bool): (nat, nat) -> Step<bool>
  {
    (w: nat, s: nat) => SendAttempt(e, m1, m2, w, s, p)
  }

  /** What follows a send attempt with both bytes acknowledged: STOP, and 0. */
  function SendFinish(e: Env, p: bool): (nat, nat) -> Step<int>
  {
    (w: nat, s: nat) => Step(0, StopEvents(e.rises(w), p), w + 1, s)
  }

  /** `isp_master_send(m1, m2)`: up to `retries` retries, STOP and 0 on success, -EIO after the last failed attempt. */
  function MasterSendStep(e: Env, m1: byte, m2: byte, n: nat, s: nat, p: bool, retries: nat): Step<int>
  {
    Retry(SendTry(e, m1, m2, p), SendFinish(e, p), -EIO, n, s, retries)
  }

  /** One framed attempt of `isp_master_recv`: START and the address byte. */
  function AddrAttempt(e: Env, addr: byte, n: nat, s: nat, p: bool): Step<bool>
  {
    var b := SendByteStep(e, addr, n, s, p);
    Step(b.out == ISP_ACK, StartEvents + b.events, b.waits, b.samples)
  }

  function AddrTry(e: Env, addr: byte, p: bool): (nat, nat) -> Step<bool>
  {
    (w: nat, s: nat) => AddrAttempt(e, addr, w, s, p)
  }

  /** What follows an acknowledged address: one byte received, whatever `isp_recvdbyte` returns, then STOP. */
  function RecvFinish(e: Env, p: bool): (nat, nat) -> Step<Recv>
  {
    (w: nat, s: nat) =>
      var b := RecvByteStep(e, w, s, p);
      Step(Got(b.out), b.events + StopEvents(e.rises(b.waits), p), b.waits + 1, b.samples)
  }

  /** `isp_master_recv(addr)`: up to `retries` retries of the address, then one byte and STOP. */
  function MasterRecvStep(e: Env, addr: byte, n: nat, s: nat, p: bool, retries: nat): Step<Recv>
  {
    Retry(AddrTry(e, addr, p), RecvFinish(e, p), Nak, n, s, retries)
  }

  // ---------------------------------------------------------------- properties

  /** A run that has produced the events done so far and will continue as rest ends as total. */
  ghost predicate Resumes<T>(total: Step<T>, done: seq<LineEvent>, rest: Step<T>)
  {
    total.out == rest.out && total.events == done + rest.events
    && total.waits == rest.waits && total.samples == rest.samples
  }

  /** Concatenation regroups freely; the transport methods build their traces piece by piece. */
  lemma Assoc<T>(a: seq<T>, b: seq<T>, c: seq<T>)
    ensures a + b + c == a + (b + c)
  {
  }

  /** Before anything is done, a run resumes as itself. */
  lemma ResumesStart<T>(total: Step<T>)
    ensures Resumes(total, [], total)
  {
    assert [] + total.events == total.events;
  }

  /** Once nothing is left to do, the run is what was done. */
  lemma ResumesEnd<T>(total: Step<T>, done: seq<LineEvent>, out: T, n: nat, s: nat)
    requires Resumes(total, done, Step(out, [], n, s))
    ensures total == Step(out, done, n, s)
  {
    assert done + [] == done;
  }

  /** A bit sent on a clock that rose: the run goes on with the next lower bit. */
  lemma SendBitsAdvance(total: Step<bool>, done: seq<LineEvent>, e: Env, c: byte, i: nat, n: nat, s: nat, p: bool)
    requires i < 8 && e.rises(n)
    requires Resumes(total, done, SendBits(e, c, i, n, s, p))
    ensures Resumes(total, done + BitOut(Bit(c, i), p, true), SendBits(e, c, i - 1, n + 1, s, p))
  {
    Assoc(done, BitOut(Bit(c, i), p, true), SendBits(e, c, i - 1, n + 1, s, p).events);
  }

  /** A bit sent on a clock that did not rise ends the bits with false. */
  lemma SendBitsMiss(total: Step<bool>, done: seq<LineEvent>, e: Env, c: byte, i: nat, n: nat, s: nat, p: bool)
    requires i < 8 && !e.rises(n)
    requires Resumes(total, done, SendBits(e, c, i, n, s, p))
    ensures total == Step(false, done + BitOut(Bit(c, i), p, false), n + 1, s)
  {
  }

  /** A bit clocked in on a clock that rose: the run goes on with one bit fewer. */
  lemma RecvBitsAdvance(total: Step<int>, done: seq<LineEvent>, e: Env, k: nat, acc: byte, n: nat, s: nat, p: bool)
    requires k > 0 && e.rises(n)
    requires Resumes(total, done, RecvBits(e, k, acc, n, s, p))
    ensures Resumes(total, done + BitIn(p, true, e.levels(s)), RecvBits(e, k - 1, ShiftIn(acc, e.levels(s)), n + 1, s + 1, p))
  {
    Assoc(done, BitIn(p, true, e.levels(s)), RecvBits(e, k - 1, ShiftIn(acc, e.levels(s)), n + 1, s + 1, p).events);
  }

  /** A bit clocked in on a clock that did not rise ends the byte with -ETIMEDOUT. */
  lemma RecvBitsMiss(total: Step<int>, done: seq<LineEvent>, e: Env, k: nat, acc: byte, n: nat, s: nat, p: bool)
    requires k > 0 && !e.rises(n)
    requires Resumes(total, done, RecvBits(e, k, acc, n, s, p))
    ensures total == Step(-ETIMEDOUT, done + BitIn(p, false, false), n + 1, s)
  {
  }

  /** A failed attempt with retries left: the run goes on with the next attempt. */
  lemma RetryAgain<T>(total: Step<T>, done: seq<LineEvent>, attempt: (nat, nat) -> Step<bool>, finish: (nat, nat) -> Step<T>,
                      fail: T, n: nat, s: nat, retries: nat)
    requires retries > 0 && !attempt(n, s).out
    requires Resumes(total, done, Retry(attempt, finish, fail, n, s, retries))
    ensures var a := attempt(n, s);
      Resumes(total, done + a.events, Retry(attempt, finish, fail, a.waits, a.samples, retries - 1))
  {
    var a := attempt(n, s);
    Assoc(done, a.events, Retry(attempt, finish, fail, a.waits, a.samples, retries - 1).events);
  }

  /** The last attempt failed: the run ends with `fail`. */
  lemma RetryGiveUp<T>(total: Step<T>, done: seq<LineEvent>, attempt: (nat, nat) -> Step<bool>, finish: (nat, nat) -> Step<T>,
                       fail: T, n: nat, s: nat)
    requires !attempt(n, s).out
    requires Resumes(total, done, Retry(attempt, finish, fail, n, s, 0))
    ensures var a := attempt(n, s);
      total == Step(fail, done + a.events, a.waits, a.samples)
  {
  }

  /** An attempt succeeded: the run ends with what `finish` does. */
  lemma RetrySucceed<T>(total: Step<T>, done: seq<LineEvent>, attempt: (nat, nat) -> Step<bool>, finish: (nat, nat) -> Step<T>,
                        fail: T, n: nat, s: nat, retries: nat)
    requires attempt(n, s).out
    requires Resumes(total, done, Retry(attempt, finish, fail, n, s, retries))
    ensures var a := attempt(n, s);
      var f := finish(a.waits, a.samples);
      total == Step(f.out, done + a.events + f.events, f.waits, f.samples)
  {
    var a := attempt(n, s);
    Assoc(done, a.events, finish(a.waits, a.samples).events);
  }

  lemma {:induction false} ProjectConcat<U>(a: seq<LineEvent>, b: seq<LineEvent>, f: LineEvent -> seq<U>)
    ensures Project(a + b, f) == Project(a, f) + Project(b, f)
  {
    if a == [] {
      assert a + b == b;
    } else {
      assert (a + b)[1..] == a[1..] + b;
      ProjectConcat(a[1..], b, f);
    }
  }

  lemma ProjectOne<U>(x: LineEvent, f: LineEvent -> seq<U>)
    ensures Project([x], f) == f(x)
  {
    assert [x][1..] == [];
  }

  lemma ProjectFour<U>(a: LineEvent, b: LineEvent, c: LineEvent, d: LineEvent, f: LineEvent -> seq<U>)
    ensures Project([a, b, c, d], f) == f(a) + f(b) + f(c) + f(d)
  {
    assert [a, b, c, d] == [a] + [b] + [c] + [d];
    ProjectConcat([a] + [b] + [c], [d], f);
    ProjectConcat([a] + [b], [c], f);
    ProjectConcat([a], [b], f);
    ProjectOne(a, f);
    ProjectOne(b, f);
    ProjectOne(c, f);
    ProjectOne(d, f);
  }

  /** What one bit out puts on SDA and samples. */
  lemma BitOutLines(bit: bool, p: bool)
    ensures DrivenSda(BitOut(bit, p, true)) == [bit]
    ensures Sampled(BitOut(bit, p, true)) == []
  {
    var ev := BitOut(bit, p, true);
    ProjectFour(ev[0], ev[1], ev[2], ev[3], SdaDriven);
    ProjectFour(ev[0], ev[1], ev[2], ev[3], SdaSampled);
  }

  /** What one bit in samples. */
  lemma BitInLines(p: bool, high: bool)
    ensures Sampled(BitIn(p, true, high)) == [high]
  {
    var ev := BitIn(p, true, high);
    ProjectFour(ev[0], ev[1], ev[2], ev[3], SdaSampled);
  }

  /**
   * Sending bits i..0 completes exactly when each of their i + 1 clock
   * waits sees SCL rise; SDA then carried bits i down to 0 of c, which are
   * the last i + 1 of its MSB-first bits, and nothing was sampled.
   */
  lemma {:induction false} SendBitsSemantics(e: Env, c: byte, i: int, n: nat, s: nat, p: bool)
    requires -1 <= i < 8
    ensures var st := SendBits(e, c, i, n, s, p);
      && st.samples == s
      && (st.out <==> forall j :: n <= j < n + i + 1 ==> e.rises(j))
      && (st.out ==> st.waits == n + i + 1 && DrivenSda(st.events) == MsbFirst(c, 8)[7 - i..] && Sampled(st.events) == [])
    decreases i + 1
  {
    if i >= 0 {
      if e.rises(n) {
        SendBitsSemantics(e, c, i - 1, n + 1, s, p);
        var rest := SendBits(e, c, i - 1, n + 1, s, p);
        var ev := BitOut(Bit(c, i), p, true);
        BitOutLines(Bit(c, i), p);
        ProjectConcat(ev, rest.events, SdaDriven);
        ProjectConcat(ev, rest.events, SdaSampled);
        var m := MsbFirst(c, 8);
        assert m[7 - i..] == [m[7 - i]] + m[8 - i..];
      } else {
        assert n <= n < n + i + 1 && !e.rises(n);
      }
    } else {
      assert MsbFirst(c, 8)[8..] == [];
    }
  }

  /** The acknowledge clock: SDA released, then sampled once. */
  lemma AckLines(p: bool, high: bool)
    ensures DrivenSda(AckEvents(p, true, high)) == [true]
    ensures Sampled(AckEvents(p, true, high)) == [high]
  {
    var head := [Sda(true), Scl(true), ClockWait(p, true), SdaSample(high)];
    assert head + [Scl(false)] == [Sda(true), Scl(true), ClockWait(p, true), SdaSample(high), Scl(false)];
    ProjectConcat(head, [Scl(false)], SdaDriven);
    ProjectConcat(head, [Scl(false)], SdaSampled);
    ProjectFour(head[0], head[1], head[2], head[3], SdaDriven);
    ProjectFour(head[0], head[1], head[2], head[3], SdaSampled);
    ProjectOne(Scl(false), SdaDriven);
    ProjectOne(Scl(false), SdaSampled);
  }

  /**
   * `isp_sendbyte` acknowledges exactly when all nine clock waits see SCL
   * rise and SDA is then sampled low; a timeout counts as not acknowledged.
   * When it completes, SDA carried bit (c >> i) & 1 for i = 7 down to 0 and
   * was then released for the acknowledge, which is the one sample taken.
   */
  lemma SendByteSemantics(e: Env, c: byte, n: nat, s: nat, p: bool)
    ensures var st := SendByteStep(e, c, n, s, p);
      && (st.out == ISP_ACK <==> (forall j :: n <= j < n + 9 ==> e.rises(j)) && !e.levels(s))
      && (st.out == -ETIMEDOUT <==> exists j :: n <= j < n + 9 && !e.rises(j))
      && (st.out != -ETIMEDOUT ==> DrivenSda(st.events) == MsbFirst(c, 8) + [true] && Sampled(st.events) == [e.levels(s)])
  {
    SendByteTimeout(e, c, n, s, p);
    var b := SendBits(e, c, 7, n, s, p);
    SendBitsSemantics(e, c, 7, n, s, p);
    if b.out && e.rises(n + 8) {
      var tail := AckEvents(p, true, e.levels(s));
      AckLines(p, e.levels(s));
      ProjectConcat(b.events, tail, SdaDriven);
      ProjectConcat(b.events, tail, SdaSampled);
      assert MsbFirst(c, 8)[0..] == MsbFirst(c, 8);
    }
  }

  /** `isp_sendbyte` times out exactly when one of its nine clock waits does; otherwise it took one sample. */
  lemma SendByteTimeout(e: Env, c: byte, n: nat, s: nat, p: bool)
    ensures var st := SendByteStep(e, c, n, s, p);
      && (st.out == -ETIMEDOUT <==> exists j :: n <= j < n + 9 && !e.rises(j))
      && (st.out != -ETIMEDOUT ==> st.waits == n + 9 && st.samples == s + 1 && (st.out == ISP_ACK <==> !e.levels(s)))
  {
    var b := SendBits(e, c, 7, n, s, p);
    SendBitsSemantics(e, c, 7, n, s, p);
    if b.out && !e.rises(n + 8) {
      assert n <= n + 8 < n + 9 && !e.rises(n + 8);
    }
  }

  /** Receiving k bits times out exactly when one of its k clock waits does; otherwise it took k samples. */
  lemma {:induction false} RecvBitsTimeout(e: Env, k: nat, acc: byte, n: nat, s: nat, p: bool)
    ensures var st := RecvBits(e, k, acc, n, s, p);
      && (st.out == -ETIMEDOUT <==> exists j :: n <= j < n + k && !e.rises(j))
      && (st.out != -ETIMEDOUT ==> st.waits == n + k && st.samples == s + k)
    decreases k
  {
    if k > 0 && !e.rises(n) {
      assert n <= n < n + k && !e.rises(n);
    } else if k > 0 {
      var acc' := ShiftIn(acc, e.levels(s));
      RecvBitsTimeout(e, k - 1, acc', n + 1, s + 1, p);
      if !(forall j :: n + 1 <= j < n + k ==> e.rises(j)) {
        var j :| n + 1 <= j < n + k && !e.rises(j);
        assert n <= j < n + k;
      }
    }
  }

  /**
   * Shifting in k bits over an accumulator that holds fewer than 8 - k
   * bits, when it does not time out, leaves without any truncation the
   * accumulator's bits followed by the k levels sampled, in order.
   */
  lemma {:induction false} RecvBitsValue(e: Env, k: nat, acc: byte, n: nat, s: nat, p: bool)
    requires k <= 8 && acc < Pow2(8 - k)
    ensures var st := RecvBits(e, k, acc, n, s, p);
      st.out != -ETIMEDOUT ==> st.out == Assemble(MsbFirst(acc, 8 - k) + Levels(e, s, k))
    decreases k
  {
    if k == 0 {
      assert MsbFirst(acc, 8) + Levels(e, s, 0) == MsbFirst(acc, 8);
      AssembleMsbFirst(acc, 8);
    } else if e.rises(n) {
      var high := e.levels(s);
      var acc' := ShiftIn(acc, high);
      ShiftStep(acc, k, high);
      RecvBitsValue(e, k - 1, acc', n + 1, s + 1, p);
      MsbFirstSnoc(acc', 8 - (k - 1));
      assert acc' / 2 == acc && (acc' % 2 == 1) == high;
      assert Levels(e, s, k) == [high] + Levels(e, s + 1, k - 1);
      Assoc(MsbFirst(acc, 8 - k), [high], Levels(e, s + 1, k - 1));
    }
  }

  /** Receiving k bits without a timeout samples SDA k times, in order. */
  lemma {:induction false} RecvBitsSampled(e: Env, k: nat, acc: byte, n: nat, s: nat, p: bool)
    ensures var st := RecvBits(e, k, acc, n, s, p);
      st.out != -ETIMEDOUT ==> Sampled(st.events) == Levels(e, s, k)
    decreases k
  {
    if k == 0 {
      assert Levels(e, s, 0) == [];
    } else if e.rises(n) {
      var high := e.levels(s);
      var acc' := ShiftIn(acc, high);
      RecvBitsSampled(e, k - 1, acc', n + 1, s + 1, p);
      var rest := RecvBits(e, k - 1, acc', n + 1, s + 1, p);
      BitInLines(p, high);
      ProjectConcat(BitIn(p, true, high), rest.events, SdaSampled);
      assert Levels(e, s, k) == [high] + Levels(e, s + 1, k - 1);
    }
  }

  /** One shift of the u8 accumulator loses nothing while it holds fewer than 8 - k bits. */
  lemma ShiftStep(acc: byte, k: nat, bit: bool)
    requires 1 <= k <= 8 && acc < Pow2(8 - k)
    ensures var b := if bit then 1 else 0;
      ShiftIn(acc, bit) == 2 * acc + b < Pow2(8 - (k - 1))
  {
    Pow2Mono(8 - k, 7);
    assert Pow2(7) == 128;
    Pow2Split(8 - k);
  }

  /**
   * `isp_recvdbyte` either times out or returns, within 0..255, the value
   * whose MSB-first bits are the eight SDA levels it sampled; so the levels
   * a sender drove for c come back as c.
   */
  lemma RecvByteSemantics(e: Env, n: nat, s: nat, p: bool)
    ensures var st := RecvByteStep(e, n, s, p);
      && (st.out == -ETIMEDOUT <==> exists j :: n <= j < n + 8 && !e.rises(j))
      && (st.out != -ETIMEDOUT ==>
            && 0 <= st.out < 256
            && Sampled(st.events) == Levels(e, s, 8)
            && MsbFirst(st.out, 8) == Levels(e, s, 8))
      && (forall c: byte :: st.out != -ETIMEDOUT && Levels(e, s, 8) == MsbFirst(c, 8) ==> st.out == c)
  {
    var st := RecvByteStep(e, n, s, p);
    var b := RecvBits(e, 8, 0, n, s, p);
    RecvBitsTimeout(e, 8, 0, n, s, p);
    RecvBitsValue(e, 8, 0, n, s, p);
    RecvBitsSampled(e, 8, 0, n, s, p);
    if b.out != -ETIMEDOUT {
      assert MsbFirst(0, 0) + Levels(e, s, 8) == Levels(e, s, 8);
      AssembleBound(Levels(e, s, 8));
      assert Pow2(8) == 256;
      MsbFirstAssemble(Levels(e, s, 8));
      ProjectConcat([Sda(true)], b.events, SdaSampled);
      ProjectOne(Sda(true), SdaSampled);
      forall c: byte | Levels(e, s, 8) == MsbFirst(c, 8) ensures st.out == c {
        ByteRoundTrip(c);
      }
    }
  }

  /**
   * A byte the sender completed, whose eight data levels the receiver
   * sampled one for one, arrives unchanged.
   */
  lemma {:induction false} ByteOverTheWire(e: Env, c: byte, n: nat, s: nat, p: bool, n': nat, s': nat, p': bool)
    requires SendByteStep(e, c, n, s, p).out != -ETIMEDOUT
    requires Levels(e, s', 8) + [true] == DrivenSda(SendByteStep(e, c, n, s, p).events)
    requires RecvByteStep(e, n', s', p').out != -ETIMEDOUT
    ensures RecvByteStep(e, n', s', p').out == c
  {
    SendByteSemantics(e, c, n, s, p);
    RecvByteSemantics(e, n', s', p');
    assert Levels(e, s', 8) == (Levels(e, s', 8) + [true])[..8] == (MsbFirst(c, 8) + [true])[..8] == MsbFirst(c, 8);
  }

  /** The trace a ends with the events b. */
  predicate EndsWith(a: seq<LineEvent>, b: seq<LineEvent>)
  {
    |b| <= |a| && a[|a| - |b|..] == b
  }

  lemma EndsWithPrepend(x: seq<LineEvent>, a: seq<LineEvent>, b: seq<LineEvent>)
    requires EndsWith(a, b)
    ensures EndsWith(x + a, b)
  {
    assert (x + a)[|x + a| - |b|..] == a[|a| - |b|..];
  }

  lemma EndsWithTrans(a: seq<LineEvent>, b: seq<LineEvent>, c: seq<LineEvent>)
    requires EndsWith(a, b) && EndsWith(b, c)
    ensures EndsWith(a, c)
  {
    assert a[|a| - |c|..] == a[|a| - |b|..][|b| - |c|..];
  }

  /** The attempt a retry loop stops after. */
  function LastAttempt(attempt: (nat, nat) -> Step<bool>, n: nat, s: nat, retries: nat): Step<bool>
    decreases retries
  {
    var a := attempt(n, s);
    if a.out || retries == 0 then a else LastAttempt(attempt, a.waits, a.samples, retries - 1)
  }

  /** One more retry prepends one failed attempt. */
  lemma AttemptAtNext(attempt: (nat, nat) -> Step<bool>, n: nat, s: nat, k: nat)
    ensures AttemptAt(attempt, n, s, k + 1) == AttemptAt(attempt, attempt(n, s).waits, attempt(n, s).samples, k)
  {
  }

  /**
   * A retry loop with `retries` retries makes between 1 and retries + 1
   * attempts, every one but the last failed; when the last failed too,
   * every retry was spent.
   */
  lemma {:induction false} RetryAttempts(attempt: (nat, nat) -> Step<bool>, n: nat, s: nat, retries: nat)
    ensures var made := AttemptsMade(attempt, n, s, retries);
      && 1 <= made <= retries + 1
      && (forall k :: 0 <= k < made - 1 ==> !AttemptAt(attempt, n, s, k).out)
      && LastAttempt(attempt, n, s, retries) == AttemptAt(attempt, n, s, made - 1)
      && (!LastAttempt(attempt, n, s, retries).out ==> made == retries + 1)
    decreases retries
  {
    var a := attempt(n, s);
    if !a.out && retries > 0 {
      RetryAttempts(attempt, a.waits, a.samples, retries - 1);
      var made' := AttemptsMade(attempt, a.waits, a.samples, retries - 1);
      forall k | 0 <= k < made' ensures !AttemptAt(attempt, n, s, k).out {
        if k > 0 {
          AttemptAtNext(attempt, n, s, k - 1);
        }
      }
      AttemptAtNext(attempt, n, s, made' - 1);
    }
  }

  /**
   * A retry loop finishes after its last attempt when that one succeeded,
   * its trace then ending with the finishing events; otherwise it returns
   * `fail`, its trace ending with the failed attempt.
   */
  lemma {:induction false} RetryOutcome<T>(attempt: (nat, nat) -> Step<bool>, finish: (nat, nat) -> Step<T>, fail: T,
                                           n: nat, s: nat, retries: nat)
    ensures var st := Retry(attempt, finish, fail, n, s, retries);
      var last := LastAttempt(attempt, n, s, retries);
      var f := finish(last.waits, last.samples);
      && (last.out ==> st.out == f.out && st.waits == f.waits && st.samples == f.samples && EndsWith(st.events, f.events))
      && (!last.out ==> st.out == fail && st.waits == last.waits && st.samples == last.samples && EndsWith(st.events, last.events))
    decreases retries
  {
    var a := attempt(n, s);
    if a.out {
      var f := finish(a.waits, a.samples);
      EndsWithPrepend(a.events, f.events, f.events);
    } else if retries > 0 {
      RetryOutcome(attempt, finish, fail, a.waits, a.samples, retries - 1);
      var rest := Retry(attempt, finish, fail, a.waits, a.samples, retries - 1);
      var last := LastAttempt(attempt, n, s, retries);
      var f := finish(last.waits, last.samples);
      if last.out {
        EndsWithPrepend(a.events, rest.events, f.events);
      } else {
        EndsWithPrepend(a.events, rest.events, last.events);
      }
    } else {
      assert a.events[|a.events| - |a.events|..] == a.events;
    }
  }

  /** A retry loop succeeds exactly when one of its first retries + 1 attempts does. */
  lemma RetrySucceedsIff(attempt: (nat, nat) -> Step<bool>, n: nat, s: nat, retries: nat)
    ensures LastAttempt(attempt, n, s, retries).out <==>
      exists k :: 0 <= k <= retries && AttemptAt(attempt, n, s, k).out
  {
    RetryAttempts(attempt, n, s, retries);
  }

  /**
   * `isp_master_send` with two retries returns 0 or -EIO, and 0 exactly
   * when one of its three framed attempts has both bytes acknowledged; a
   * send that returns 0 ends with STOP, a failed one gives up without one.
   */
  lemma MasterSendResult(e: Env, m1: byte, m2: byte, n: nat, s: nat, p: bool)
    ensures var st := MasterSendStep(e, m1, m2, n, s, p, 2);
      var last := LastAttempt(SendTry(e, m1, m2, p), n, s, 2);
      && (st.out == 0 || st.out == -EIO)
      && (st.out == 0 <==> exists k :: 0 <= k <= 2 && AttemptAt(SendTry(e, m1, m2, p), n, s, k).out)
      && (st.out == 0 ==> EndsWith(st.events, StopEvents(e.rises(last.waits), p)))
      && (st.out == -EIO ==> EndsWith(st.events, last.events))
  {
    RetryOutcome(SendTry(e, m1, m2, p), SendFinish(e, p), -EIO, n, s, 2);
    RetrySucceedsIff(SendTry(e, m1, m2, p), n, s, 2);
  }

  /**
   * `isp_master_recv` with two retries answers Nak exactly when none of its
   * three address bytes is acknowledged; otherwise it carries what
   * `isp_recvdbyte` returned after the last attempt, timeout included, and
   * ends with STOP.
   */
  lemma MasterRecvResult(e: Env, addr: byte, n: nat, s: nat, p: bool)
    ensures var st := MasterRecvStep(e, addr, n, s, p, 2);
      var last := LastAttempt(AddrTry(e, addr, p), n, s, 2);
      var b := RecvByteStep(e, last.waits, last.samples, p);
      && (st.out.Nak? <==> forall k :: 0 <= k <= 2 ==> !AttemptAt(AddrTry(e, addr, p), n, s, k).out)
      && (st.out.Got? ==> st.out.raw == b.out && EndsWith(st.events, StopEvents(e.rises(b.waits), p)))
  {
    var st := MasterRecvStep(e, addr, n, s, p, 2);
    var last := LastAttempt(AddrTry(e, addr, p), n, s, 2);
    var b := RecvByteStep(e, last.waits, last.samples, p);
    RetryOutcome(AddrTry(e, addr, p), RecvFinish(e, p), Nak, n, s, 2);
    RetrySucceedsIff(AddrTry(e, addr, p), n, s, 2);
    if last.out {
      var f := RecvFinish(e, p)(last.waits, last.samples);
      assert f.events == b.events + StopEvents(e.rises(b.waits), p);
      EndsWithPrepend(b.events, StopEvents(e.rises(b.waits), p), StopEvents(e.rises(b.waits), p));
      EndsWithTrans(st.events, f.events, StopEvents(e.rises(b.waits), p));
    }
  }

  /** What one pulse puts on each line. */
  lemma PulseProjections(i: nat)
    ensures Project(PulseEvents(i), SclDriven) == [Bit(SP_SIGNAL, i)]
    ensures Project(PulseEvents(i), SdaDriven) == [false, true]
    ensures Project(PulseEvents(i), WaitPolicy) == []
    ensures Project(PulseEvents(i), LongHold) == if i == 5 then [true] else []
  {
    var a := [Scl(Bit(SP_SIGNAL, i)), Hold(3), Sda(false), Hold(10)];
    var b := [Sda(true), Hold(10)];
    var c: seq<LineEvent> := if i == 5 then [Hold(30)] else [];
    ProjectFour(a[0], a[1], a[2], a[3], SclDriven);
    ProjectFour(a[0], a[1], a[2], a[3], SdaDriven);
    ProjectFour(a[0], a[1], a[2], a[3], WaitPolicy);
    ProjectFour(a[0], a[1], a[2], a[3], LongHold);
    ProjectConcat([b[0]], [b[1]], SclDriven);
    ProjectConcat([b[0]], [b[1]], SdaDriven);
    ProjectConcat([b[0]], [b[1]], WaitPolicy);
    ProjectConcat([b[0]], [b[1]], LongHold);
    assert b == [b[0]] + [b[1]];
    ProjectOne(b[0], SclDriven);
    ProjectOne(b[1], SclDriven);
    ProjectOne(b[0], SdaDriven);
    ProjectOne(b[1], SdaDriven);
    ProjectOne(b[0], WaitPolicy);
    ProjectOne(b[1], WaitPolicy);
    ProjectOne(b[0], LongHold);
    ProjectOne(b[1], LongHold);
    if i == 5 {
      ProjectOne(Hold(30), SclDriven);
      ProjectOne(Hold(30), SdaDriven);
      ProjectOne(Hold(30), WaitPolicy);
      ProjectOne(Hold(30), LongHold);
    }
    ProjectConcat(a + b, c, SclDriven);
    ProjectConcat(a + b, c, SdaDriven);
    ProjectConcat(a + b, c, WaitPolicy);
    ProjectConcat(a + b, c, LongHold);
    ProjectConcat(a, b, SclDriven);
    ProjectConcat(a, b, SdaDriven);
    ProjectConcat(a, b, WaitPolicy);
    ProjectConcat(a, b, LongHold);
  }

  /** The closing clock wait: SCL released, no SDA, the bounded policy. */
  lemma SpWaitLines(rose: bool)
    ensures DrivenScl([Scl(true), ClockWait(true, rose)]) == [true]
    ensures DrivenSda([Scl(true), ClockWait(true, rose)]) == []
    ensures Project([Scl(true), ClockWait(true, rose)], WaitPolicy) == [true]
    ensures Project([Scl(true), ClockWait(true, rose)], LongHold) == []
  {
    var t := [Scl(true), ClockWait(true, rose)];
    assert t == [t[0]] + [t[1]];
    ProjectConcat([t[0]], [t[1]], SclDriven);
    ProjectConcat([t[0]], [t[1]], SdaDriven);
    ProjectConcat([t[0]], [t[1]], WaitPolicy);
    ProjectConcat([t[0]], [t[1]], LongHold);
    ProjectOne(t[0], SclDriven);
    ProjectOne(t[1], SclDriven);
    ProjectOne(t[0], SdaDriven);
    ProjectOne(t[1], SdaDriven);
    ProjectOne(t[0], WaitPolicy);
    ProjectOne(t[1], WaitPolicy);
    ProjectOne(t[0], LongHold);
    ProjectOne(t[1], LongHold);
  }

  /**
   * The pulses for bits i..0 and the closing wait drive SCL to the last
   * i + 1 of the fifteen MSB-first bits of the signal and then release it.
   */
  lemma {:induction false} SpTrainScl(i: int, rose: bool)
    requires -1 <= i < SP_BITS
    ensures DrivenScl(SpTrain(i, rose)) == MsbFirst(SP_SIGNAL, SP_BITS)[SP_BITS - 1 - i..] + [true]
    decreases i + 1
  {
    var m := MsbFirst(SP_SIGNAL, SP_BITS);
    if i < 0 {
      SpWaitLines(rose);
      assert m[SP_BITS..] == [];
    } else {
      SpTrainScl(i - 1, rose);
      PulseProjections(i);
      ProjectConcat(PulseEvents(i), SpTrain(i - 1, rose), SclDriven);
      assert m[SP_BITS - 1 - i..] == [m[SP_BITS - 1 - i]] + m[SP_BITS - i..];
    }
  }

  /** They pulse SDA low then high once per bit. */
  lemma {:induction false} SpTrainSda(i: int, rose: bool)
    requires -1 <= i < SP_BITS
    ensures |DrivenSda(SpTrain(i, rose))| == 2 * (i + 1)
    ensures forall j :: 0 <= j < 2 * (i + 1) ==> DrivenSda(SpTrain(i, rose))[j] == (j % 2 == 1)
    decreases i + 1
  {
    if i < 0 {
      SpWaitLines(rose);
    } else {
      SpTrainSda(i - 1, rose);
      var rest := DrivenSda(SpTrain(i - 1, rose));
      PulseProjections(i);
      ProjectConcat(PulseEvents(i), SpTrain(i - 1, rose), SdaDriven);
      var sda := DrivenSda(SpTrain(i, rose));
      assert sda == [false, true] + rest;
      forall j | 2 <= j < 2 * (i + 1) ensures sda[j] == (j % 2 == 1) {
        assert sda[j] == rest[j - 2];
      }
    }
  }

  /** They make one clock wait, with the bounded policy, and hold 30 µs once if bit 5 is among them. */
  lemma {:induction false} SpTrainWaits(i: int, rose: bool)
    requires -1 <= i < SP_BITS
    ensures Project(SpTrain(i, rose), WaitPolicy) == [true]
    ensures |Project(SpTrain(i, rose), LongHold)| == if i >= 5 then 1 else 0
    decreases i + 1
  {
    if i < 0 {
      SpWaitLines(rose);
    } else {
      SpTrainWaits(i - 1, rose);
      PulseProjections(i);
      ProjectConcat(PulseEvents(i), SpTrain(i - 1, rose), WaitPolicy);
      ProjectConcat(PulseEvents(i), SpTrain(i - 1, rose), LongHold);
    }
  }

  /** The signal's fifteen bits, most significant first. */
  lemma SpSignalBits()
    ensures MsbFirst(SP_SIGNAL, SP_BITS)
         == [false, true, false, true, false, true, false, true, true, true, true, true, false, false, false]
  {
    MsbFirstSnoc(0x2af8, 15);
    MsbFirstSnoc(0x157c, 14);
    MsbFirstSnoc(0xabe, 13);
    MsbFirstSnoc(0x55f, 12);
    MsbFirstSnoc(0x2af, 11);
    MsbFirstSnoc(0x157, 10);
    MsbFirstSnoc(0xab, 9);
    MsbFirstSnoc(0x55, 8);
    MsbFirstSnoc(0x2a, 7);
    MsbFirstSnoc(0x15, 6);
    MsbFirstSnoc(0xa, 5);
    MsbFirstSnoc(0x5, 4);
    MsbFirstSnoc(0x2, 3);
    MsbFirstSnoc(0x1, 2);
    MsbFirstSnoc(0x0, 1);
    assert MsbFirst(0, 0) == [];
  }

  /**
   * `isp_sp_signal` drives SCL to 0,1,0,1,0,1,0,1,1,1,1,1,0,0,0 and then
   * releases it; SDA goes low then high fifteen times; its only clock wait
   * is the last, made with the iteration-bounded policy on; and it holds
   * the lines 30 µs longer exactly once.
   */
  lemma SpSignalLines(rose: bool)
    ensures DrivenScl(SpSignalEvents(rose))
         == [false, true, false, true, false, true, false, true, true, true, true, true, false, false, false, true]
    ensures |DrivenSda(SpSignalEvents(rose))| == 30
    ensures forall j :: 0 <= j < 30 ==> DrivenSda(SpSignalEvents(rose))[j] == (j % 2 == 1)
    ensures Project(SpSignalEvents(rose), WaitPolicy) == [true]
    ensures |Project(SpSignalEvents(rose), LongHold)| == 1
  {
    SpTrainScl(SP_BITS - 1, rose);
    SpTrainSda(SP_BITS - 1, rose);
    SpTrainWaits(SP_BITS - 1, rose);
    SpSignalBits();
    assert MsbFirst(SP_SIGNAL, SP_BITS)[0..] == MsbFirst(SP_SIGNAL, SP_BITS);
  }
}
