/**
 * The register-level view of the ISP traffic: what the driver asks the
 * controller to do, in order, and the fixed command lists of the register
 * layer and of the three flash phases.
 */
module Ops {
  import opened Bits

  /** A register-level action, with whether it went through. */
  datatype RegOp =
    | IspReset                                // reset_for_isp: power off, lines low, power on
    | ModeEntry                               // isp_sp_signal
    | Write(reg: byte, val: byte, ok: bool)   // isp_master_send(reg, val), ok when it returned 0
    | Read(reg: byte, val: byte, ok: bool)    // isp_master_recv(reg, &val): val as left in *val
    | PowerCycle                              // power off, wait, power on, wait
    | SmbusRead(cmd: byte, ret: int)          // i2c_smbus_read_byte_data(client, cmd)

  /** A register-level action without its outcome: what the driver asked for. */
  datatype Cmd =
    | CReset
    | CModeEntry
    | CWrite(reg: byte, val: byte)
    | CRead(reg: byte)
    | CPowerCycle
    | CSmbus(cmd: byte)

  function CmdOf(op: RegOp): Cmd
  {
    match op
    case IspReset => CReset
    case ModeEntry => CModeEntry
    case Write(reg, val, _) => CWrite(reg, val)
    case Read(reg, _, _) => CRead(reg)
    case PowerCycle => CPowerCycle
    case SmbusRead(cmd, _) => CSmbus(cmd)
  }

  /** What was asked for, in order. */
  function Cmds(t: seq<RegOp>): (c: seq<Cmd>)
    ensures |c| == |t|
    ensures forall i :: 0 <= i < |t| ==> c[i] == CmdOf(t[i])
  {
    seq(|t|, i requires 0 <= i < |t| => CmdOf(t[i]))
  }

  /** Every register write in t was acknowledged. */
  predicate Acked(t: seq<RegOp>)
  {
    forall i :: 0 <= i < |t| && t[i].Write? ==> t[i].ok
  }

  /** The values the register reads of t left behind, in order. */
  function ReadVals(t: seq<RegOp>): seq<byte>
  {
    if t == [] then []
    else ReadVals(t[..|t| - 1]) + (if t[|t| - 1].Read? then [t[|t| - 1].val] else [])
  }

  /** Several runs (of read values, of traces), one after another. */
  function Flatten<T>(vss: seq<seq<T>>): seq<T>
  {
    if vss == [] then [] else Flatten(vss[..|vss| - 1]) + vss[|vss| - 1]
  }

  /** A trace that asked only for register writes leaves no read value behind. */
  lemma {:induction false} ReadValsNone(t: seq<RegOp>)
    requires forall i :: 0 <= i < |Cmds(t)| ==> Cmds(t)[i].CWrite?
    ensures ReadVals(t) == []
  {
    if t != [] {
      assert Cmds(t[..|t| - 1]) == Cmds(t)[..|t| - 1];
      ReadValsNone(t[..|t| - 1]);
    }
  }

  /** A trace that was extended keeps its beginning. */
  lemma PrefixKept<T>(a: seq<T>, b: seq<T>, n: nat)
    requires a <= b && n <= |a|
    ensures b[..n] == a[..n]
  {
    assert b[..|a|] == a;
  }

  /** A prefix grown by the next element. */
  lemma SliceSnoc<T>(s: seq<T>, i: nat)
    requires i < |s|
    ensures s[..i] + [s[i]] == s[..i + 1]
  {
  }

  lemma FlattenSnoc<T>(vss: seq<seq<T>>, vs: seq<T>)
    ensures Flatten(vss + [vs]) == Flatten(vss) + vs
  {
    assert (vss + [vs])[..|vss|] == vss;
  }

  lemma CmdsConcat(a: seq<RegOp>, b: seq<RegOp>)
    ensures Cmds(a + b) == Cmds(a) + Cmds(b)
  {
  }

  lemma AckedConcat(a: seq<RegOp>, b: seq<RegOp>)
    ensures Acked(a + b) <==> Acked(a) && Acked(b)
  {
    if Acked(a) && Acked(b) {
      forall i | 0 <= i < |a + b| && (a + b)[i].Write? ensures (a + b)[i].ok {
        if i >= |a| {
          assert (a + b)[i] == b[i - |a|];
        }
      }
    }
    if Acked(a + b) {
      forall i | 0 <= i < |a| && a[i].Write? ensures a[i].ok {
        assert (a + b)[i] == a[i];
      }
      forall i | 0 <= i < |b| && b[i].Write? ensures b[i].ok {
        assert (a + b)[|a| + i] == b[i];
      }
    }
  }

  lemma {:induction false} ReadValsConcat(a: seq<RegOp>, b: seq<RegOp>)
    ensures ReadVals(a + b) == ReadVals(a) + ReadVals(b)
  {
    if b == [] {
      assert a + b == a;
    } else {
      assert (a + b)[..|a + b| - 1] == a + b[..|b| - 1];
      ReadValsConcat(a, b[..|b| - 1]);
    }
  }

  // ---------------------------------------------------------------- register layer

  /** raw_dbgir3: three debug-instruction bytes into 0xC2/0xC4/0xC6, then 0x80 into 0xC0 to execute them. */
  function Dbgir3(d2: byte, d1: byte, d0: byte): seq<Cmd>
  {
    [CWrite(0xc2, d2), CWrite(0xc4, d1), CWrite(0xc6, d0), CWrite(0xc0, 0x80)]
  }

  /** raw_dbgir2: a two-byte debug instruction. */
  function Dbgir2(d1: byte, d0: byte): seq<Cmd>
  {
    [CWrite(0xc2, d1), CWrite(0xc4, d0), CWrite(0xc0, 0x80)]
  }

  /** raw_spchl: two bytes into 0xD0/0xD2. */
  function Spchl(d1: byte, d0: byte): seq<Cmd>
  {
    [CWrite(0xd0, d1), CWrite(0xd2, d0)]
  }

  /** isp_common_set: six fixed debug instructions. */
  function CommonSet(): seq<Cmd>
  {
    Dbgir3(0x75, 0x8f, 0x25) + Dbgir3(0x75, 0xc6, 0x0e) + Dbgir3(0x75, 0xf7, 0xc1)
    + Dbgir3(0x75, 0xf7, 0x1e) + Dbgir3(0x75, 0xf7, 0xec) + Dbgir3(0x75, 0xf7, 0x81)
  }

  /** isp_ers_timing_set. */
  function ErsTiming(): seq<Cmd>
  {
    Dbgir3(0x75, 0xf2, 0x20) + Dbgir3(0x75, 0xf3, 0xa1) + Dbgir3(0x75, 0xf4, 0x07)
  }

  /** isp_pgm_timing_set. */
  function PgmTiming(): seq<Cmd>
  {
    Dbgir3(0x75, 0xf2, 0xe8) + Dbgir3(0x75, 0xf3, 0x03) + Dbgir3(0x75, 0xf4, 0x00)
  }

  /** The three writes that select a flash operation: 0x42 erase, 0x20 program, 0x2A read. */
  function Select(mode: byte): seq<Cmd>
  {
    [CWrite(0xf8, 0x01), CWrite(0xc8, 0xff), CWrite(0xca, mode)]
  }

  const ERASE_MODE: byte := 0x42
  const PROGRAM_MODE: byte := 0x20
  const READ_MODE: byte := 0x2a

  /** Load a 16-bit flash address: high byte, then low byte, through debug instruction 0x90. */
  function SetAddress(addr: u16): seq<Cmd>
  {
    Dbgir3(0x90, addr / 0x100, addr % 0x100)
  }

  // ---------------------------------------------------------------- erase

  /** The block size and the erased range (TC360_FW_ER_MAX_LEN). */
  const BLOCK := 0x400
  const ER_MAX_LEN := 0x8000

  /** Status register 0xC1 reads 0x12 when a block erase is done. */
  const DCR_DONE: byte := 0x12

  /** Poll budget: the counter starts at TC360_DCR_RD_RETRY = 50 and is checked with `cnt-- < 0`. */
  const DCR_RD_RETRY := 50

  /** Before the polls of one block: set the address, start the erase. */
  function BlockStart(addr: u16): seq<Cmd>
  {
    Dbgir3(0x75, 0xf1, 0x80) + SetAddress(addr) + Spchl(0xff, 0x3a) + [CWrite(0xc0, 0x14)]
  }

  function Polls(n: nat): (c: seq<Cmd>)
    ensures |c| == n && forall i :: 0 <= i < n ==> c[i] == CRead(0xc1)
  {
    seq(n, _ => CRead(0xc1))
  }

  /** Block k started and polled as many times as the values in polls[k] say. */
  function EraseBlocks(polls: seq<seq<byte>>): seq<Cmd>
    requires |polls| <= 32
  {
    if polls == [] then []
    else
      var k := |polls| - 1;
      EraseBlocks(polls[..k]) + BlockStart(k * BLOCK) + Polls(|polls[k]|)
  }

  lemma EraseBlocksSnoc(polls: seq<seq<byte>>, vs: seq<byte>)
    requires |polls| < 32
    ensures EraseBlocks(polls + [vs]) == EraseBlocks(polls) + BlockStart(|polls| * BLOCK) + Polls(|vs|)
  {
    assert (polls + [vs])[..|polls|] == polls;
  }

  /** Up to mode selection, the commands every erase sends. */
  function EraseHead(): seq<Cmd>
  {
    [CReset, CModeEntry] + CommonSet()
  }

  function EraseSetup(): seq<Cmd>
  {
    ErsTiming() + Select(ERASE_MODE)
  }

  /** A block's polls that ended on the done value: at most 51, the last 0x12 and no earlier one. */
  predicate PollDone(vs: seq<byte>)
  {
    1 <= |vs| <= DCR_RD_RETRY + 1 && vs[|vs| - 1] == DCR_DONE
    && forall i :: 0 <= i < |vs| - 1 ==> vs[i] != DCR_DONE
  }

  /** A block's polls that ran out: the 52nd read gives up, whatever it read, after 51 that were not 0x12. */
  predicate PollExhausted(vs: seq<byte>)
  {
    |vs| == DCR_RD_RETRY + 2 && forall i :: 0 <= i < |vs| - 1 ==> vs[i] != DCR_DONE
  }

  /** Every block's polls ended on the done value. */
  predicate AllDone(polls: seq<seq<byte>>)
  {
    forall k :: 0 <= k < |polls| ==> PollDone(polls[k])
  }

  lemma AllDoneSnoc(polls: seq<seq<byte>>, vs: seq<byte>)
    requires AllDone(polls) && PollDone(vs)
    ensures AllDone(polls + [vs])
  {
    forall k | 0 <= k < |polls + [vs]| ensures PollDone((polls + [vs])[k]) {
      if k < |polls| {
        assert (polls + [vs])[k] == polls[k];
      }
    }
  }

  // ---------------------------------------------------------------- program and read back

  const PAGE := 0x20

  /** The end of the page that holds the last byte: fw_len rounded up to a multiple of 0x20. */
  function RoundUp(fwLen: nat): nat
  {
    (fwLen + PAGE - 1) / PAGE * PAGE
  }

  /** Before the bytes of a page: its address, then the per-page channel bytes (0x1E program, 0x28 read). */
  function PageHead(addr: u16, ch: byte): seq<Cmd>
  {
    SetAddress(addr) + Spchl(0xff, ch)
  }

  /** Load byte b through debug instruction 0x74, program it, step the address. */
  function ProgramSteps(b: byte): seq<Cmd>
  {
    Dbgir2(0x74, b) + Dbgir3(0x75, 0xf1, 0x80) + [CWrite(0xc0, 0x14), CWrite(0xc0, 0x08)]
  }

  /** Programming the byte at addr: the page head first when addr starts a page. */
  function ProgramByte(data: seq<byte>, addr: u16): seq<Cmd>
    requires addr < |data|
  {
    (if addr % PAGE == 0 then PageHead(addr, 0x1e) else []) + ProgramSteps(data[addr])
  }

  /** Programming the bytes at addresses 0 .. n-1, in increasing order. */
  function ProgramCmds(data: seq<byte>, n: nat): seq<Cmd>
    requires n <= |data| && n <= 0x1_0000
  {
    if n == 0 then [] else ProgramCmds(data, n - 1) + ProgramByte(data, n - 1)
  }

  function WriteHead(): seq<Cmd>
  {
    [CReset, CModeEntry] + CommonSet() + PgmTiming() + Select(PROGRAM_MODE)
  }

  /** Read the byte at the current address out of register 0xD9 and step the address. */
  function ReadSteps(): seq<Cmd>
  {
    [CWrite(0xc0, 0x14), CWrite(0xc0, 0x08), CRead(0xd9)]
  }

  /** Reading back the byte at addr: the page head first when addr starts a page. */
  function ReadBack(addr: u16): seq<Cmd>
  {
    (if addr % PAGE == 0 then PageHead(addr, 0x28) else []) + ReadSteps()
  }

  /** Reading back addresses 0 .. n-1, in increasing order. */
  function VerifyCmds(n: nat): seq<Cmd>
    requires n <= 0x1_0000
  {
    if n == 0 then [] else VerifyCmds(n - 1) + ReadBack(n - 1)
  }

  function VerifyHead(): seq<Cmd>
  {
    [CReset, CModeEntry] + CommonSet() + Select(READ_MODE)
  }

  /**
   * The page walk of the program and read-back loops: a page that starts
   * below fw_len lies wholly below the rounded length, and the walk stops
   * exactly at the rounded length.
   */
  lemma PageWalk(addr: nat, fwLen: nat)
    requires addr % PAGE == 0
    ensures addr < fwLen ==> addr + PAGE <= RoundUp(fwLen) && (addr + PAGE) % PAGE == 0
    ensures fwLen <= addr <= RoundUp(fwLen) ==> addr == RoundUp(fwLen)
  {
  }

  /** Within a page that starts at p, the address a past the last byte done is a page start only at the page end. */
  lemma PageEnd(p: nat, a: nat)
    requires p % PAGE == 0 && p < a <= p + PAGE
    ensures a % PAGE == 0 <==> a == p + PAGE
  {
    var j := a - p;
    assert a == (p / PAGE) * PAGE + j;
    assert a % PAGE == j % PAGE;
  }

  // ---------------------------------------------------------------- properties

  /** The erase walks exactly the 32 block bases below 0x8000, whatever the image length. */
  lemma EraseBases(addr: nat)
    ensures (exists k :: 0 <= k < 32 && addr == k * BLOCK) <==> addr % BLOCK == 0 && addr < ER_MAX_LEN
  {
    if addr % BLOCK == 0 && addr < ER_MAX_LEN {
      assert 0 <= addr / BLOCK < 32 && addr == (addr / BLOCK) * BLOCK;
    }
  }

  /**
   * The page-rounded length is a whole number of pages, covers the image
   * and adds less than a page; it exceeds fw_len exactly when the last page
   * is partial.
   */
  lemma RoundUpBounds(fwLen: nat)
    ensures var r := RoundUp(fwLen);
      && r % PAGE == 0 && fwLen <= r < fwLen + PAGE
      && (r == fwLen <==> fwLen % PAGE == 0)
  {
  }
}
