/**
 * The driver's per-device state (struct tc360_data) and the bit-banged ISP
 * transport on it: the line primitives, framing, byte transfer, the
 * mode-entry signal and the two register transactions with their retries.
 * Each transport method is proved to do what the matching function of
 * `Wire` says, on the lines the oracle `env` answers.
 */
module Device {
  import opened Bits
  import opened Wire
  import opened Ops

  /** fw_flash_state: 0 until first set (the structure is zero-allocated), then STATE_NORMAL, STATE_FLASH or STATE_FLASH_FAIL. */
  datatype FlashState = Unset | Normal | Flash | FlashFail

  /** fdata->fw_flash_status of the factory build: 0, DOWNLOADING, FAIL, PASS. */
  datatype FacStatus = NoStatus | Downloading | Failed | Passed

  /** The fields of struct fw_image the flashing reads, and the image bytes after the header. */
  datatype FwImage = FwImage(firstFwVer: u16, fwLen: u32, data: seq<byte>)

  /** What the image memory is: a blob from request_firmware (data->fw) and/or a kzalloc'ed buffer (data->fw_img). */
  datatype Holding = Holding(firmware: bool, buffer: bool)

  class Tc360 {
    /** What the clock and data lines answer. */
    const env: Env
    /** What successive i2c_smbus_read_byte_data calls return. */
    const smbus: nat -> int
    /** Build configuration: SEC_FAC_TK, SUPPORT_MULTI_PCB, SUPPORT_MODULE_VER. */
    const facTk: bool
    const multiPcb: bool
    const supportModuleVer: int

    /** How many clock waits, SDA samples and SMBus reads have been made. */
    var waits: nat
    var samples: nat
    var smbusReads: nat
    /** Everything done on the lines, and at the register level. */
    ghost var lines: seq<LineEvent>
    ghost var ops: seq<RegOp>

    var countingTimer: bool
    var img: FwImage
    /** fw_img is NULL: nothing loaded yet, or the image buffer allocation of an internal-SD load failed. */
    var fwImgNull: bool
    var holding: Holding
    var curFwPath: byte
    var fwFlashState: FlashState
    var enabled: bool
    var irqEnabled: bool
    /** fw_wake_lock is held (wake_lock_active). */
    var wakeLock: bool
    /** The firmware workqueue exists; fw_work is queued on it. */
    var fwWq: bool
    var workQueued: bool
    /** The failed-flash path has torn the input device down. */
    var removed: bool
    var facStatus: FacStatus
    var fwUpdateSkip: bool
    /** touchkey_enable: the interrupt handler reads keys only while it is set. */
    var touchkeyEnable: bool

    /** tc360_data as tc360_probe prepares it: zero-allocated, touchkey_enable set, the firmware workqueue created. */
    constructor(env: Env, smbus: nat -> int, facTk: bool, multiPcb: bool, supportModuleVer: int)
      ensures this.env == env && this.smbus == smbus
      ensures this.facTk == facTk && this.multiPcb == multiPcb && this.supportModuleVer == supportModuleVer
      ensures waits == 0 && samples == 0 && smbusReads == 0 && lines == [] && ops == []
      ensures !countingTimer && fwImgNull && holding == Holding(false, false) && fwFlashState == Unset
      ensures !enabled && !irqEnabled && !wakeLock && fwWq && !workQueued && !removed
      ensures facStatus == NoStatus && !fwUpdateSkip && touchkeyEnable
    {
      this.env := env;
      this.smbus := smbus;
      this.facTk := facTk;
      this.multiPcb := multiPcb;
      this.supportModuleVer := supportModuleVer;
      waits, samples, smbusReads := 0, 0, 0;
      lines, ops := [], [];
      countingTimer := false;
      img := FwImage(0, 0, []);
      fwImgNull := true;
      holding := Holding(false, false);
      curFwPath := 0;
      fwFlashState := Unset;
      enabled, irqEnabled, wakeLock := false, false, false;
      fwWq, workQueued, removed := true, false, false;
      facStatus := NoStatus;
      fwUpdateSkip := false;
      touchkeyEnable := true;
    }

    // ---------------------------------------------------------------- line primitives

    /** setsda: release SDA (input, pulled up) or drive it low. */
    method SetSda(high: bool)
      modifies `lines
      ensures lines == old(lines) + [Sda(high)]
    {
      lines := lines + [Sda(high)];
    }

    /** setscl. */
    method SetScl(high: bool)
      modifies `lines
      ensures lines == old(lines) + [Scl(high)]
    {
      lines := lines + [Scl(high)];
    }

    /** getsda: the level the oracle gives the next sample. */
    method GetSda() returns (high: bool)
      modifies `lines, `samples
      ensures high == env.levels(old(samples)) && samples == old(samples) + 1
      ensures lines == old(lines) + [SdaSample(high)]
    {
      high := env.levels(samples);
      samples := samples + 1;
      lines := lines + [SdaSample(high)];
    }

    /** A fixed busy-wait of the mode-entry signal. */
    method Delay(us: nat)
      modifies `lines
      ensures lines == old(lines) + [Hold(us)]
    {
      lines := lines + [Hold(us)];
    }

    /**
     * sclhi: release SCL and wait for it to rise; 0 when it does in time,
     * -ETIMEDOUT when the deadline (or, with `counting_timer` set, the
     * iteration bound) passes first.
     */
    method SclHi() returns (r: int)
      modifies `lines, `waits
      ensures var rose := env.rises(old(waits));
        && r == (if rose then 0 else -ETIMEDOUT)
        && waits == old(waits) + 1
        && lines == old(lines) + [Scl(true), ClockWait(countingTimer, rose)]
    {
      SetScl(true);
      var rose := env.rises(waits);
      lines := lines + [ClockWait(countingTimer, rose)];
      waits := waits + 1;
      r := if rose then 0 else -ETIMEDOUT;
    }

    /** isp_start. */
    method Start()
      modifies `lines
      ensures lines == old(lines) + StartEvents
    {
      SetSda(false);
      SetScl(false);
    }

    /** isp_stop: the clock wait's outcome is ignored. */
    method Stop()
      modifies `lines, `waits
      ensures waits == old(waits) + 1
      ensures lines == old(lines) + StopEvents(env.rises(old(waits)), countingTimer)
    {
      SetSda(false);
      var _ := SclHi();
      SetSda(true);
    }

    // ---------------------------------------------------------------- bytes

    /**
     * One bit of isp_sendbyte(c): SDA to bit i of c, then a clock pulse,
     * cut short if SCL does not rise.  Given a byte transfer that has done
     * `done` and goes on with bit i, it says how the transfer continues.
     */
    method ClockOut(c: byte, i: nat, ghost total: Step<bool>, ghost done: seq<LineEvent>) returns (r: int)
      requires i < 8 && Resumes(total, done, SendBits(env, c, i, waits, samples, countingTimer))
      modifies `lines, `waits
      ensures var rose := env.rises(old(waits));
        && r == (if rose then 0 else -ETIMEDOUT)
        && waits == old(waits) + 1
        && lines == old(lines) + BitOut(Bit(c, i), countingTimer, rose)
      ensures r == 0 ==> Resumes(total, done + BitOut(Bit(c, i), countingTimer, true), SendBits(env, c, i - 1, waits, samples, countingTimer))
      ensures r != 0 ==> total == Step(false, done + BitOut(Bit(c, i), countingTimer, false), waits, samples)
    {
      if env.rises(waits) {
        SendBitsAdvance(total, done, env, c, i, waits, samples, countingTimer);
      } else {
        SendBitsMiss(total, done, env, c, i, waits, samples, countingTimer);
      }
      SetSda(Bit(c, i));
      r := SclHi();
      if r < 0 {
        return;
      }
      SetScl(false);
    }

    /** isp_sendbyte(c): bits 7 down to 0, then the acknowledge. */
    method SendByte(c: byte) returns (r: int)
      modifies `lines, `waits, `samples
      ensures var st := SendByteStep(env, c, old(waits), old(samples), countingTimer);
        && r == st.out && lines == old(lines) + st.events && waits == st.waits && samples == st.samples
    {
      ghost var total := SendBits(env, c, 7, waits, samples, countingTimer);
      ghost var done: seq<LineEvent> := [];
      ResumesStart(total);
      var i := 7;
      while i >= 0
        invariant -1 <= i <= 7
        invariant lines == old(lines) + done
        invariant Resumes(total, done, SendBits(env, c, i, waits, samples, countingTimer))
      {
        ghost var bit := BitOut(Bit(c, i), countingTimer, env.rises(waits));
        var t := ClockOut(c, i, total, done);
        Assoc(old(lines), done, bit);
        if t < 0 {
          return -ETIMEDOUT;
        }
        done := done + bit;
        i := i - 1;
      }
      ResumesEnd(total, done, true, waits, samples);
      ghost var ack := AckEvents(countingTimer, env.rises(waits), env.levels(samples));
      var high;
      r, high := AckIn();
      Assoc(old(lines), done, ack);
    }

    /** The acknowledge of isp_sendbyte: SDA released, then SDA sampled in a clock pulse. */
    method AckIn() returns (r: int, high: bool)
      modifies `lines, `waits, `samples
      ensures var rose := env.rises(old(waits));
        && waits == old(waits) + 1
        && high == (rose && env.levels(old(samples)))
        && r == (if !rose then -ETIMEDOUT else if high then 0 else ISP_ACK)
        && samples == old(samples) + (if rose then 1 else 0)
        && lines == old(lines) + AckEvents(countingTimer, rose, env.levels(old(samples)))
    {
      SetSda(true);
      var t := SclHi();
      if t < 0 {
        return -ETIMEDOUT, false;
      }
      high := GetSda();
      r := if high then 0 else ISP_ACK;
      SetScl(false);
    }

    /**
     * One bit of isp_recvdbyte with k bits still to come: a clock pulse
     * around one sample of SDA, shifted into acc; cut short if SCL does not
     * rise.  Given a receive that has done `done` and goes on with these k
     * bits, it says how the receive continues.
     */
    method ClockIn(k: nat, acc: byte, ghost total: Step<int>, ghost done: seq<LineEvent>) returns (r: int, next: byte)
      requires k > 0 && Resumes(total, done, RecvBits(env, k, acc, waits, samples, countingTimer))
      modifies `lines, `waits, `samples
      ensures var rose := env.rises(old(waits));
        && r == (if rose then 0 else -ETIMEDOUT)
        && waits == old(waits) + 1
        && lines == old(lines) + BitIn(countingTimer, rose, rose && env.levels(old(samples)))
      ensures r == 0 ==> Resumes(total, done + BitIn(countingTimer, true, env.levels(old(samples))),
                                 RecvBits(env, k - 1, next, waits, samples, countingTimer))
      ensures r != 0 ==> total == Step(-ETIMEDOUT, done + BitIn(countingTimer, false, false), waits, samples)
    {
      if env.rises(waits) {
        RecvBitsAdvance(total, done, env, k, acc, waits, samples, countingTimer);
      } else {
        RecvBitsMiss(total, done, env, k, acc, waits, samples, countingTimer);
      }
      r := SclHi();
      if r < 0 {
        return r, acc;
      }
      var high := GetSda();
      next := ShiftIn(acc, high);
      SetScl(false);
    }

    /** isp_recvdbyte: SDA released, then eight samples shifted into a u8, MSB first. */
    method RecvByte() returns (r: int)
      modifies `lines, `waits, `samples
      ensures var st := RecvByteStep(env, old(waits), old(samples), countingTimer);
        && r == st.out && lines == old(lines) + st.events && waits == st.waits && samples == st.samples
    {
      var indata: byte := 0;
      SetSda(true);
      ghost var released := lines;
      ghost var total := RecvBits(env, 8, 0, waits, samples, countingTimer);
      ghost var done: seq<LineEvent> := [];
      ResumesStart(total);
      var k: nat := 8;
      while k > 0
        invariant lines == released + done
        invariant Resumes(total, done, RecvBits(env, k, indata, waits, samples, countingTimer))
      {
        ghost var bit := BitIn(countingTimer, env.rises(waits), env.rises(waits) && env.levels(samples));
        var t, next := ClockIn(k, indata, total, done);
        Assoc(released, done, bit);
        if t < 0 {
          Assoc(old(lines), [Sda(true)], total.events);
          return -ETIMEDOUT;
        }
        done := done + bit;
        indata := next;
        k := k - 1;
      }
      ResumesEnd(total, done, indata, waits, samples);
      Assoc(old(lines), [Sda(true)], total.events);
      r := indata;
    }

    // ---------------------------------------------------------------- register transactions

    /** One framed attempt of isp_master_send: START, m1 and, if acknowledged, m2; true when both were. */
    method SendFramed(m1: byte, m2: byte) returns (ok: bool)
      modifies `lines, `waits, `samples
      ensures var a := SendTry(env, m1, m2, countingTimer)(old(waits), old(samples));
        && ok == a.out && lines == old(lines) + a.events && waits == a.waits && samples == a.samples
    {
      ghost var b1 := SendByteStep(env, m1, waits, samples, countingTimer);
      Start();
      var ret := SendByte(m1);
      Assoc(old(lines), StartEvents, b1.events);
      if ret != ISP_ACK {
        return false;
      }
      ghost var b2 := SendByteStep(env, m2, waits, samples, countingTimer);
      ret := SendByte(m2);
      Assoc(old(lines), StartEvents + b1.events, b2.events);
      return ret == ISP_ACK;
    }

    /**
     * isp_master_send(m1, m2): START, m1, m2, STOP; a byte that is not
     * acknowledged (or times out) restarts from START while one of the two
     * retries is left, and otherwise gives -EIO.
     */
    method MasterSend(m1: byte, m2: byte) returns (r: int)
      modifies `lines, `waits, `samples, `ops
      ensures var st := MasterSendStep(env, m1, m2, old(waits), old(samples), countingTimer, 2);
        && r == st.out && lines == old(lines) + st.events && waits == st.waits && samples == st.samples
      ensures r == 0 || r == -EIO
      ensures ops == old(ops) + [Write(m1, m2, r == 0)]
    {
      ghost var attempt, finish := SendTry(env, m1, m2, countingTimer), SendFinish(env, countingTimer);
      ghost var total := Retry(attempt, finish, -EIO, waits, samples, 2);
      ghost var done: seq<LineEvent> := [];
      ResumesStart(total);
      var retries := 2;
      while true
        invariant 0 <= retries <= 2
        invariant lines == old(lines) + done && ops == old(ops)
        invariant Resumes(total, done, Retry(attempt, finish, -EIO, waits, samples, retries))
        decreases retries
      {
        ghost var n, s := waits, samples;
        ghost var a := attempt(n, s);
        var ok := SendFramed(m1, m2);
        Assoc(old(lines), done, a.events);
        if !ok {
          if retries > 0 {
            RetryAgain(total, done, attempt, finish, -EIO, n, s, retries);
            done := done + a.events;
            retries := retries - 1;
            continue;
          }
          RetryGiveUp(total, done, attempt, finish, -EIO, n, s);
          ops := ops + [Write(m1, m2, false)];
          return -EIO;
        }
        RetrySucceed(total, done, attempt, finish, -EIO, n, s, retries);
        ghost var f := finish(waits, samples);
        Stop();
        Assoc(old(lines), done + a.events, f.events);
        ops := ops + [Write(m1, m2, true)];
        return 0;
      }
    }

    /** isp_master_send(reg, val) as the register layer sees it: one register write, acknowledged or not. */
    method Send(reg: byte, val: byte) returns (r: int)
      modifies `lines, `waits, `samples, `ops
      ensures r == 0 || r == -EIO
      ensures ops == old(ops) + [Write(reg, val, r == 0)]
    {
      r := MasterSend(reg, val);
    }

    /** One framed attempt of isp_master_recv: START and the address byte; true when acknowledged. */
    method AddrFramed(addr: byte) returns (ok: bool)
      modifies `lines, `waits, `samples
      ensures var a := AddrTry(env, addr, countingTimer)(old(waits), old(samples));
        && ok == a.out && lines == old(lines) + a.events && waits == a.waits && samples == a.samples
    {
      ghost var b := SendByteStep(env, addr, waits, samples, countingTimer);
      Start();
      var ret := SendByte(addr);
      Assoc(old(lines), StartEvents, b.events);
      return ret == ISP_ACK;
    }

    /** After an acknowledged address: one byte received, whatever the outcome, then STOP. */
    method RecvAndStop() returns (raw: int)
      modifies `lines, `waits, `samples
      ensures var f := RecvFinish(env, countingTimer)(old(waits), old(samples));
        && f.out == Got(raw) && lines == old(lines) + f.events && waits == f.waits && samples == f.samples
    {
      ghost var b := RecvByteStep(env, waits, samples, countingTimer);
      raw := RecvByte();
      Stop();
      Assoc(old(lines), b.events, StopEvents(env.rises(b.waits), countingTimer));
    }

    /**
     * isp_master_recv(addr, &val): START and addr, retried like a send;
     * once acknowledged, one byte is received into *val, truncated to u8
     * even when the receive timed out, then STOP and 0.  When the address
     * is never acknowledged, *val keeps its value and the result is -EIO.
     */
    method MasterRecv(addr: byte, val: byte) returns (r: int, got: byte)
      modifies `lines, `waits, `samples, `ops
      ensures var st := MasterRecvStep(env, addr, old(waits), old(samples), countingTimer, 2);
        && lines == old(lines) + st.events && waits == st.waits && samples == st.samples
        && (st.out.Nak? ==> r == -EIO && got == val)
        && (st.out.Got? ==> r == 0 && got == ToU8(st.out.raw))
      ensures ops == old(ops) + [Read(addr, got, r == 0)]
    {
      ghost var attempt, finish := AddrTry(env, addr, countingTimer), RecvFinish(env, countingTimer);
      ghost var total := Retry(attempt, finish, Nak, waits, samples, 2);
      ghost var done: seq<LineEvent> := [];
      ResumesStart(total);
      var retries := 2;
      while true
        invariant 0 <= retries <= 2
        invariant lines == old(lines) + done && ops == old(ops)
        invariant Resumes(total, done, Retry(attempt, finish, Nak, waits, samples, retries))
        decreases retries
      {
        ghost var n, s := waits, samples;
        ghost var a := attempt(n, s);
        var ok := AddrFramed(addr);
        Assoc(old(lines), done, a.events);
        if !ok {
          if retries > 0 {
            RetryAgain(total, done, attempt, finish, Nak, n, s, retries);
            done := done + a.events;
            retries := retries - 1;
            continue;
          }
          RetryGiveUp(total, done, attempt, finish, Nak, n, s);
          ops := ops + [Read(addr, val, false)];
          return -EIO, val;
        }
        RetrySucceed(total, done, attempt, finish, Nak, n, s, retries);
        ghost var f := finish(waits, samples);
        var raw := RecvAndStop();
        Assoc(old(lines), done + a.events, f.events);
        got := ToU8(raw);
        ops := ops + [Read(addr, got, true)];
        return 0, got;
      }
    }

    /** isp_master_recv(reg, &val) as the register layer sees it: one register read and what *val holds after it. */
    method Recv(reg: byte, val: byte) returns (r: int, got: byte)
      modifies `lines, `waits, `samples, `ops
      ensures r == 0 || r == -EIO
      ensures r != 0 ==> got == val
      ensures ops == old(ops) + [Read(reg, got, r == 0)]
    {
      r, got := MasterRecv(reg, val);
    }

    // ---------------------------------------------------------------- mode entry and power

    /** One bit of isp_sp_signal: SCL to bit i of the signal, then a low-high pulse on SDA. */
    method Pulse(i: nat)
      modifies `lines
      ensures lines == old(lines) + PulseEvents(i)
    {
      SetScl(Bit(SP_SIGNAL, i));
      Delay(3);
      SetSda(false);
      Delay(10);
      SetSda(true);
      Delay(10);
      if i == 5 {
        Delay(30);
      }
    }

    /**
     * isp_sp_signal: the fifteen-bit pulse train on SCL, each bit followed
     * by a low-high pulse on SDA, then one wait for SCL with
     * `counting_timer` set only around it.
     */
    method SpSignal()
      modifies `lines, `waits, `countingTimer, `ops
      ensures lines == old(lines) + SpSignalEvents(env.rises(old(waits)))
      ensures waits == old(waits) + 1
      ensures !countingTimer
      ensures ops == old(ops) + [ModeEntry]
    {
      ghost var rose := env.rises(waits);
      ghost var done: seq<LineEvent> := [];
      var i := SP_BITS - 1;
      while i >= 0
        invariant -1 <= i < SP_BITS
        invariant lines == old(lines) + done && waits == old(waits) && ops == old(ops)
        invariant SpSignalEvents(rose) == done + SpTrain(i, rose)
      {
        Pulse(i);
        Assoc(old(lines), done, PulseEvents(i));
        Assoc(done, PulseEvents(i), SpTrain(i - 1, rose));
        done := done + PulseEvents(i);
        i := i - 1;
      }
      countingTimer := true;
      var _ := SclHi();
      Assoc(old(lines), done, [Scl(true), ClockWait(true, rose)]);
      countingTimer := false;
      ops := ops + [ModeEntry];
    }

    /** reset_for_isp: power off, lines driven low, power on (the GPIO and power calls themselves are not modelled). */
    method ResetForIsp()
      modifies `ops
      ensures ops == old(ops) + [IspReset]
    {
      ops := ops + [IspReset];
    }

    /** pdata->power(false), a wait, pdata->power(true), a wait. */
    method CyclePower()
      modifies `ops
      ensures ops == old(ops) + [PowerCycle]
    {
      ops := ops + [PowerCycle];
    }

    /** reset_for_isp then isp_sp_signal, as every flash phase starts, seen at the register level. */
    method EnterIsp()
      modifies `lines, `waits, `countingTimer, `ops
      ensures ops == old(ops) + [IspReset, ModeEntry]
    {
      ResetForIsp();
      SpSignal();
      Assoc(old(ops), [IspReset], [ModeEntry]);
    }

    /** i2c_smbus_read_byte_data(client, cmd): the next answer of the oracle. */
    method SmbusReadByte(cmd: byte) returns (r: int)
      modifies `smbusReads, `ops
      ensures r == smbus(old(smbusReads)) && smbusReads == old(smbusReads) + 1
      ensures ops == old(ops) + [SmbusRead(cmd, r)]
    {
      r := smbus(smbusReads);
      smbusReads := smbusReads + 1;
      ops := ops + [SmbusRead(cmd, r)];
    }
  }
}
