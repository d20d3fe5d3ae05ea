/**
 * The three flash phases of an update over the ISP transport: erase the
 * 32 blocks of the flash, program the image page by page, read it back
 * and compare. Each phase is proved to send exactly the command list of
 * `Ops` for what the controller answered, and to return what the driver
 * promises for those answers.
 */
module Flash {
  import opened Bits
  import opened Wire
  import opened Ops
  import opened Device
  import opened Registers

  const ENOSYS := 38

  /** The three writes that select a flash operation; the driver ignores their results. */
  method SelectRun(d: Tc360, mode: byte) returns (ghost t: seq<RegOp>)
    modifies d`lines, d`waits, d`samples, d`ops
    ensures d.ops == old(d.ops) + t && Cmds(t) == Select(mode) && ReadVals(t) == []
  {
    var r1 := d.Send(0xf8, 0x01);
    var r2 := d.Send(0xc8, 0xff);
    var r3 := d.Send(0xca, mode);
    t := [Write(0xf8, 0x01, r1 == 0), Write(0xc8, 0xff, r2 == 0), Write(0xca, mode, r3 == 0)];
    ReadValsNone(t);
  }

  /**
   * The entry of tc360_erase_fw: reset into ISP mode, the mode-entry
   * signal, the common set, whose failure ends the erase, then the erase
   * timing, whose result is overwritten unread, and erase mode.
   */
  method EraseEntry(d: Tc360) returns (r: int, ghost t: seq<RegOp>)
    modifies d`lines, d`waits, d`samples, d`ops, d`countingTimer
    ensures d.ops == old(d.ops) + t && ReadVals(t) == []
    ensures r == 0 || r == -EIO
    ensures |t| >= |EraseHead()| && (r == 0 <==> Acked(t[..|EraseHead()|]))
    ensures Cmds(t) == if r == 0 then EraseHead() + EraseSetup() else EraseHead()
  {
    d.EnterIsp();
    ghost var entry := [IspReset, ModeEntry];
    assert Cmds(entry) == [CReset, CModeEntry] && ReadVals(entry) == [] && Acked(entry) by {
      assert entry[..1][..0] == [];
    }
    var rc, tc := CommonSetRun(d);
    Assoc(old(d.ops), entry, tc);
    t := entry + tc;
    CmdsConcat(entry, tc);
    AckedConcat(entry, tc);
    ReadValsConcat(entry, tc);
    assert Cmds(t) == EraseHead();
    assert |t| == |EraseHead()|;
    assert t[..|EraseHead()|] == t;
    if rc < 0 {
      return rc, t;
    }
    var _, te := ErsTimingSet(d);
    ghost var ts := SelectRun(d, ERASE_MODE);
    Assoc(old(d.ops) + t, te, ts);
    Assoc(old(d.ops), t, te + ts);
    ReadValsConcat(te, ts);
    CmdsConcat(te, ts);
    assert Cmds(te + ts) == EraseSetup();
    CmdsConcat(t, te + ts);
    ReadValsConcat(t, te + ts);
    assert (t + (te + ts))[..|t|] == t;
    t := t + (te + ts);
    r := 0;
  }

  /**
   * One status poll loop of the erase: read 0xC1 into val until it reads
   * 0x12, giving up on the read that finds the counter (50, checked with
   * `cnt-- < 0`) already negative.
   */
  method PollDcr(d: Tc360) returns (done: bool, ghost t: seq<RegOp>, ghost vs: seq<byte>)
    modifies d`lines, d`waits, d`samples, d`ops
    ensures d.ops == old(d.ops) + t && Cmds(t) == Polls(|vs|) && ReadVals(t) == vs
    ensures if done then PollDone(vs) else PollExhausted(vs)
  {
    var val: byte := 0;
    var cnt := DCR_RD_RETRY;
    t, vs := [], [];
    while true
      invariant d.ops == old(d.ops) + t && Cmds(t) == Polls(|vs|) && ReadVals(t) == vs
      invariant cnt == DCR_RD_RETRY - |vs| && |vs| <= DCR_RD_RETRY + 1
      invariant forall i :: 0 <= i < |vs| ==> vs[i] != DCR_DONE
      decreases DCR_RD_RETRY + 1 - |vs|
    {
      var ok, got := d.Recv(0xc1, val);
      val := got;
      assert (t + [Read(0xc1, got, ok == 0)])[..|t|] == t;
      t, vs := t + [Read(0xc1, got, ok == 0)], vs + [got];
      if cnt < 0 {
        return false, t, vs;
      }
      cnt := cnt - 1;
      if val == DCR_DONE {
        return true, t, vs;
      }
    }
  }

  /** The start of one erase block: address addr, special channel 0x3A, 0x14 into 0xC0; results ignored. */
  method StartBlock(d: Tc360, addr: u16) returns (ghost t: seq<RegOp>)
    modifies d`lines, d`waits, d`samples, d`ops
    ensures d.ops == old(d.ops) + t && Cmds(t) == BlockStart(addr) && ReadVals(t) == []
  {
    var _, t1 := RawDbgir3(d, 0x75, 0xf1, 0x80);
    var _, t2 := RawDbgir3(d, 0x90, addr / 0x100, addr % 0x100);
    var _, t3 := RawSpchl(d, 0xff, 0x3a);
    var r4 := d.Send(0xc0, 0x14);
    ghost var t4 := [Write(0xc0, 0x14, r4 == 0)];
    assert ReadVals(t4) == [] by {
      assert t4[..0] == [];
    }
    t := t1 + t2 + t3 + t4;
    Assoc(old(d.ops), t1, t2);
    Assoc(old(d.ops), t1 + t2, t3);
    Assoc(old(d.ops), t1 + t2 + t3, t4);
    CmdsConcat(t1, t2);
    CmdsConcat(t1 + t2, t3);
    CmdsConcat(t1 + t2 + t3, t4);
    ReadValsConcat(t1, t2);
    ReadValsConcat(t1 + t2, t3);
    ReadValsConcat(t1 + t2 + t3, t4);
  }

  /** The trace of one more erase block extends the command list and the poll values as EraseBlocks and Flatten say. */
  lemma BlockJoin(head: seq<Cmd>, done: seq<RegOp>, polls: seq<seq<byte>>, ts: seq<RegOp>, tp: seq<RegOp>, vs: seq<byte>)
    requires |polls| < 32
    requires Cmds(done) == head + EraseBlocks(polls) && ReadVals(done) == Flatten(polls)
    requires Cmds(ts) == BlockStart(|polls| * BLOCK) && ReadVals(ts) == []
    requires Cmds(tp) == Polls(|vs|) && ReadVals(tp) == vs
    ensures Cmds(done + (ts + tp)) == head + EraseBlocks(polls + [vs])
    ensures ReadVals(done + (ts + tp)) == Flatten(polls + [vs])
  {
    ReadValsConcat(ts, tp);
    assert ReadVals(ts + tp) == [] + vs == vs;
    ReadValsConcat(done, ts + tp);
    FlattenSnoc(polls, vs);
    CmdsConcat(ts, tp);
    CmdsConcat(done, ts + tp);
    EraseBlocksSnoc(polls, vs);
    Assoc(head, EraseBlocks(polls), Cmds(ts) + Cmds(tp));
    Assoc(EraseBlocks(polls), Cmds(ts), Cmds(tp));
  }

  /**
   * One block of the erase, the loop body of tc360_erase_fw: its start at
   * addr, then the poll loop; the trace `done` so far (after `base`) and
   * the polls of the earlier blocks extended by it.
   */
  method EraseBlock(d: Tc360, addr: u16, ghost base: seq<RegOp>, ghost head: seq<Cmd>,
                    ghost done: seq<RegOp>, ghost polls: seq<seq<byte>>)
    returns (r: int, ghost done': seq<RegOp>, ghost vs: seq<byte>)
    requires |polls| < 32 && addr == |polls| * BLOCK
    requires d.ops == base + done && Cmds(done) == head + EraseBlocks(polls) && ReadVals(done) == Flatten(polls)
    modifies d`lines, d`waits, d`samples, d`ops
    ensures d.ops == base + done' && done <= done'
    ensures Cmds(done') == head + EraseBlocks(polls + [vs]) && ReadVals(done') == Flatten(polls + [vs])
    ensures r == 0 || r == -ENOSYS
    ensures if r == 0 then PollDone(vs) else PollExhausted(vs)
  {
    ghost var ts := StartBlock(d, addr);
    var ok;
    ghost var tp;
    ok, tp, vs := PollDcr(d);
    Assoc(base + done, ts, tp);
    Assoc(base, done, ts + tp);
    BlockJoin(head, done, polls, ts, tp, vs);
    done' := done + (ts + tp);
    r := if ok then 0 else -ENOSYS;
  }

  /**
   * The block loop of tc360_erase_fw: the 32 blocks at 0x400 steps below
   * 0x8000, whatever the image length, each polled until done; a block
   * whose polls run out ends the erase with -ENOSYS at once.
   */
  method EraseLoop(d: Tc360, ghost base: seq<RegOp>, ghost t0: seq<RegOp>)
    returns (r: int, ghost t: seq<RegOp>, ghost polls: seq<seq<byte>>)
    requires d.ops == base + t0 && ReadVals(t0) == []
    modifies d`lines, d`waits, d`samples, d`ops
    ensures d.ops == base + t && t0 <= t
    ensures 1 <= |polls| <= 32 && AllDone(polls[..|polls| - 1])
    ensures Cmds(t) == Cmds(t0) + EraseBlocks(polls) && ReadVals(t) == Flatten(polls)
    ensures r == 0 || r == -ENOSYS
    ensures r == 0 ==> |polls| == 32 && AllDone(polls)
    ensures r == -ENOSYS ==> PollExhausted(polls[|polls| - 1])
  {
    t := t0;
    polls := [];
    assert Cmds(t0) + EraseBlocks(polls) == Cmds(t0);
    var addr: u16 := 0;
    while addr < ER_MAX_LEN
      invariant addr == |polls| * BLOCK && |polls| <= 32
      invariant d.ops == base + t && t0 <= t
      invariant Cmds(t) == Cmds(t0) + EraseBlocks(polls) && ReadVals(t) == Flatten(polls)
      invariant AllDone(polls)
    {
      var rb;
      ghost var vs;
      rb, t, vs := EraseBlock(d, addr, base, Cmds(t0), t, polls);
      if rb < 0 {
        assert (polls + [vs])[..|polls|] == polls;
        return -ENOSYS, t, polls + [vs];
      }
      AllDoneSnoc(polls, vs);
      polls := polls + [vs];
      addr := addr + BLOCK;
    }
    r := 0;
  }

  /**
   * What one tc360_erase_fw leaves in its register trace t with result r,
   * polls being the status values each block's poll loop read: -EIO
   * exactly when the common set was not acknowledged, and then nothing
   * after it; otherwise the erase head, setup and blocks, every block
   * before the last polled to completion, 0 after all 32 blocks and
   * -ENOSYS when the last block's polls ran out.
   */
  ghost predicate EraseOutcome(t: seq<RegOp>, r: int, polls: seq<seq<byte>>)
  {
    && (r == 0 || r == -EIO || r == -ENOSYS)
    && |t| >= |EraseHead()| && (r == -EIO <==> !Acked(t[..|EraseHead()|]))
    && (r == -EIO ==> Cmds(t) == EraseHead() && polls == [])
    && (r != -EIO ==>
          && 1 <= |polls| <= 32
          && Cmds(t) == EraseHead() + EraseSetup() + EraseBlocks(polls)
          && ReadVals(t) == Flatten(polls)
          && AllDone(polls[..|polls| - 1]))
    && (r == 0 ==> |polls| == 32 && AllDone(polls))
    && (r == -ENOSYS ==> PollExhausted(polls[|polls| - 1]))
  }

  /**
   * tc360_erase_fw: the erase entry, then the block loop. A failed common
   * set gives -EIO; a block whose polls run out gives -ENOSYS; a write or
   * read the controller does not take is not noticed.
   */
  method EraseFw(d: Tc360) returns (r: int, ghost t: seq<RegOp>, ghost polls: seq<seq<byte>>)
    modifies d`lines, d`waits, d`samples, d`ops, d`countingTimer
    ensures d.ops == old(d.ops) + t
    ensures EraseOutcome(t, r, polls)
  {
    var ret;
    ghost var t0;
    ret, t0 := EraseEntry(d);
    if ret < 0 {
      return ret, t0, [];
    }
    r, t, polls := EraseLoop(d, old(d.ops), t0);
    PrefixKept(t0, t, |EraseHead()|);
  }

  // ---------------------------------------------------------------- program

  /** The head of a page: its address through debug instruction 0x90, then special channel ch; results ignored. */
  method PageStart(d: Tc360, addr: u16, ch: byte) returns (ghost t: seq<RegOp>)
    modifies d`lines, d`waits, d`samples, d`ops
    ensures d.ops == old(d.ops) + t && Cmds(t) == PageHead(addr, ch) && ReadVals(t) == []
  {
    var _, t1 := RawDbgir3(d, 0x90, addr / 0x100, addr % 0x100);
    var _, t2 := RawSpchl(d, 0xff, ch);
    t := t1 + t2;
    Assoc(old(d.ops), t1, t2);
    CmdsConcat(t1, t2);
    ReadValsConcat(t1, t2);
  }

  /**
   * The entry of tc360_write_fw: ISP entry, the common set and the program
   * timing with their results ignored, program mode.
   */
  method WriteEntry(d: Tc360) returns (ghost t: seq<RegOp>)
    modifies d`lines, d`waits, d`samples, d`ops, d`countingTimer
    ensures d.ops == old(d.ops) + t && Cmds(t) == WriteHead()
  {
    d.EnterIsp();
    ghost var entry := [IspReset, ModeEntry];
    assert Cmds(entry) == [CReset, CModeEntry];
    var _, tc := CommonSetRun(d);
    var _, tp := PgmTimingSet(d);
    ghost var ts := SelectRun(d, PROGRAM_MODE);
    Assoc(old(d.ops), entry, tc);
    Assoc(old(d.ops), entry + tc, tp);
    Assoc(old(d.ops), entry + tc + tp, ts);
    t := entry + tc + tp + ts;
    CmdsConcat(entry, tc);
    CmdsConcat(entry + tc, tp);
    CmdsConcat(entry + tc + tp, ts);
  }

  /** One byte of a page: load it through debug instruction 0x74, program it, step the address; results ignored. */
  method ProgramNext(d: Tc360, b: byte) returns (ghost t: seq<RegOp>)
    modifies d`lines, d`waits, d`samples, d`ops
    ensures d.ops == old(d.ops) + t && Cmds(t) == ProgramSteps(b)
  {
    var _, t1 := RawDbgir2(d, 0x74, b);
    var _, t2 := RawDbgir3(d, 0x75, 0xf1, 0x80);
    var r3 := d.Send(0xc0, 0x14);
    var r4 := d.Send(0xc0, 0x08);
    ghost var t3 := [Write(0xc0, 0x14, r3 == 0), Write(0xc0, 0x08, r4 == 0)];
    Assoc(old(d.ops), t1, t2);
    Assoc(old(d.ops), t1 + t2, t3);
    t := t1 + t2 + t3;
    CmdsConcat(t1, t2);
    CmdsConcat(t1 + t2, t3);
  }

  /**
   * The byte at a within the page that starts at p extends the program
   * list; the page head is pending exactly before the page's first byte.
   */
  lemma ProgramJoin(head: seq<Cmd>, data: seq<byte>, p: nat, a: nat, done: seq<RegOp>, tb: seq<RegOp>)
    requires p % PAGE == 0 && p <= a < p + PAGE && a < |data| && a < 0x1_0000
    requires Cmds(done) == head + ProgramCmds(data, a) + (if a == p then PageHead(a, 0x1e) else [])
    requires Cmds(tb) == ProgramSteps(data[a])
    ensures Cmds(done + tb) == head + ProgramCmds(data, a + 1)
  {
    CmdsConcat(done, tb);
    assert ProgramCmds(data, a + 1) == ProgramCmds(data, a) + ProgramByte(data, a);
    assert a % PAGE == 0 <==> a == p;
    Assoc(head, ProgramCmds(data, a), ProgramByte(data, a));
    Assoc(head + ProgramCmds(data, a), if a == p then PageHead(a, 0x1e) else [], ProgramSteps(data[a]));
    Assoc(ProgramCmds(data, a), if a == p then PageHead(a, 0x1e) else [], ProgramSteps(data[a]));
  }

  /**
   * One page of tc360_write_fw: its head, then its 0x20 bytes, the address
   * stepping past the page end (the inner do-while).
   */
  method ProgramPage(d: Tc360, addr: u16, ghost base: seq<RegOp>, ghost head: seq<Cmd>, ghost done: seq<RegOp>)
    returns (next: u16, ghost done': seq<RegOp>)
    requires addr % PAGE == 0 && addr + PAGE <= |d.img.data| && addr + PAGE < 0x1_0000
    requires d.ops == base + done && Cmds(done) == head + ProgramCmds(d.img.data, addr)
    modifies d`lines, d`waits, d`samples, d`ops
    ensures next == addr + PAGE
    ensures d.ops == base + done' && Cmds(done') == head + ProgramCmds(d.img.data, next)
  {
    ghost var data := d.img.data;
    ghost var tp := PageStart(d, addr, 0x1e);
    Assoc(base, done, tp);
    CmdsConcat(done, tp);
    done' := done + tp;
    next := addr;
    while true
      invariant addr <= next < addr + PAGE
      invariant d.ops == base + done'
      invariant Cmds(done') == head + ProgramCmds(data, next) + (if next == addr then PageHead(next, 0x1e) else [])
      decreases addr + PAGE - next
    {
      var b := d.img.data[next];
      ghost var tb := ProgramNext(d, b);
      ProgramJoin(head, data, addr, next, done', tb);
      Assoc(base, done', tb);
      done' := done' + tb;
      next := next + 1;
      PageEnd(addr, next);
      if next % PAGE == 0 {
        break;
      }
      assert Cmds(done') == head + ProgramCmds(data, next) + [];
    }
  }

  /**
   * tc360_write_fw: the entry, then page by page while the address is
   * below fw_len, so the last page is programmed whole, bytes past fw_len
   * included. It always returns 0: no result of the transport is looked at.
   */
  method WriteFw(d: Tc360) returns (r: int, ghost t: seq<RegOp>)
    requires !d.fwImgNull && d.img.fwLen <= 0xFFE0 && RoundUp(d.img.fwLen) <= |d.img.data|
    modifies d`lines, d`waits, d`samples, d`ops, d`countingTimer
    ensures r == 0
    ensures d.ops == old(d.ops) + t
    ensures Cmds(t) == WriteHead() + ProgramCmds(d.img.data, RoundUp(d.img.fwLen))
  {
    t := WriteEntry(d);
    assert Cmds(t) == WriteHead() + ProgramCmds(d.img.data, 0);
    var addr: u16 := 0;
    while addr < d.img.fwLen
      invariant addr % PAGE == 0 && addr <= RoundUp(d.img.fwLen)
      invariant d.ops == old(d.ops) + t && Cmds(t) == WriteHead() + ProgramCmds(d.img.data, addr)
    {
      PageWalk(addr, d.img.fwLen);
      addr, t := ProgramPage(d, addr, old(d.ops), WriteHead(), t);
    }
    PageWalk(addr, d.img.fwLen);
    r := 0;
  }

  // ---------------------------------------------------------------- read back

  /** The entry of tc360_verify_fw: ISP entry, the common set with its result ignored, read mode. */
  method VerifyEntry(d: Tc360) returns (ghost t: seq<RegOp>)
    modifies d`lines, d`waits, d`samples, d`ops, d`countingTimer
    ensures d.ops == old(d.ops) + t && Cmds(t) == VerifyHead() && ReadVals(t) == []
  {
    d.EnterIsp();
    ghost var entry := [IspReset, ModeEntry];
    assert Cmds(entry) == [CReset, CModeEntry] && ReadVals(entry) == [] by {
      assert entry[..1][..0] == [];
    }
    var _, tc := CommonSetRun(d);
    ghost var ts := SelectRun(d, READ_MODE);
    Assoc(old(d.ops), entry, tc);
    Assoc(old(d.ops), entry + tc, ts);
    t := entry + tc + ts;
    CmdsConcat(entry, tc);
    CmdsConcat(entry + tc, ts);
    ReadValsConcat(entry, tc);
    ReadValsConcat(entry + tc, ts);
  }

  /**
   * The read back so far, after the commands `head`: addresses 0 .. n-1
   * read, their values equal to the image, and `pending` sent since.
   */
  ghost predicate ReadBackAt(t: seq<RegOp>, head: seq<Cmd>, data: seq<byte>, n: nat, pending: seq<Cmd>)
  {
    n <= |data| && n <= 0x1_0000 && Cmds(t) == head + VerifyCmds(n) + pending && ReadVals(t) == data[..n]
  }

  /**
   * One byte of the read back and its check: 0x14 and 0x08 into 0xC0,
   * register 0xD9 into val (which keeps its old value when the read is not
   * taken), then val compared with the image at address a of the page
   * that starts at p.
   */
  method ReadNext(d: Tc360, val: byte, p: u16, a: u16, ghost base: seq<RegOp>, ghost head: seq<Cmd>, ghost done: seq<RegOp>)
    returns (same: bool, got: byte, ghost done': seq<RegOp>)
    requires p % PAGE == 0 && p <= a < p + PAGE && a < |d.img.data|
    requires d.ops == base + done
    requires ReadBackAt(done, head, d.img.data, a, if a == p then PageHead(a, 0x28) else [])
    modifies d`lines, d`waits, d`samples, d`ops
    ensures d.ops == base + done'
    ensures same <==> got == d.img.data[a]
    ensures same ==> ReadBackAt(done', head, d.img.data, a + 1, [])
    ensures !same ==> Cmds(done') == head + VerifyCmds(a + 1) && ReadVals(done') == d.img.data[..a] + [got]
  {
    var r1 := d.Send(0xc0, 0x14);
    var r2 := d.Send(0xc0, 0x08);
    var r3;
    r3, got := d.Recv(0xd9, val);
    ghost var t1 := [Write(0xc0, 0x14, r1 == 0), Write(0xc0, 0x08, r2 == 0)];
    ghost var t2 := [Read(0xd9, got, r3 == 0)];
    ReadValsNone(t1);
    assert ReadVals(t2) == [got] by {
      assert t2[..0] == [];
    }
    ReadValsConcat(t1, t2);
    ghost var tb := t1 + t2;
    assert Cmds(tb) == ReadSteps();
    Assoc(base + done, t1, t2);
    Assoc(base, done, tb);
    ReadJoin(head, p as nat, a as nat, done, tb, d.img.data[..a], got);
    done' := done + tb;
    same := d.img.data[a] == got;
    if same {
      SliceSnoc(d.img.data, a as nat);
      assert Cmds(done') == head + VerifyCmds(a + 1) + [];
    }
  }

  /** The byte at a within the page that starts at p extends the read-back list and the values read. */
  lemma ReadJoin(head: seq<Cmd>, p: nat, a: nat, done: seq<RegOp>, tb: seq<RegOp>, vals: seq<byte>, got: byte)
    requires p % PAGE == 0 && p <= a < p + PAGE && a < 0x1_0000
    requires Cmds(done) == head + VerifyCmds(a) + (if a == p then PageHead(a, 0x28) else [])
    requires ReadVals(done) == vals
    requires Cmds(tb) == ReadSteps() && ReadVals(tb) == [got]
    ensures Cmds(done + tb) == head + VerifyCmds(a + 1)
    ensures ReadVals(done + tb) == vals + [got]
  {
    CmdsConcat(done, tb);
    ReadValsConcat(done, tb);
    assert VerifyCmds(a + 1) == VerifyCmds(a) + ReadBack(a);
    assert a % PAGE == 0 <==> a == p;
    Assoc(head, VerifyCmds(a), ReadBack(a));
    Assoc(head + VerifyCmds(a), if a == p then PageHead(a, 0x28) else [], ReadSteps());
    Assoc(VerifyCmds(a), if a == p then PageHead(a, 0x28) else [], ReadSteps());
  }

  /** A page head sent after the read back so far is pending in it. */
  lemma PendingJoin(done: seq<RegOp>, head: seq<Cmd>, data: seq<byte>, n: nat, tp: seq<RegOp>)
    requires ReadBackAt(done, head, data, n, []) && ReadVals(tp) == []
    ensures ReadBackAt(done + tp, head, data, n, Cmds(tp))
  {
    CmdsConcat(done, tp);
    ReadValsConcat(done, tp);
    assert Cmds(done) == head + VerifyCmds(n);
  }

  /**
   * One page of tc360_verify_fw: its head, then byte by byte, each value
   * read compared with the image; the first mismatch ends the phase with
   * -EIO at that address.
   */
  method ReadBackPage(d: Tc360, addr: u16, val: byte, ghost base: seq<RegOp>, ghost head: seq<Cmd>, ghost done: seq<RegOp>)
    returns (r: int, next: u16, last: byte, ghost done': seq<RegOp>)
    requires addr % PAGE == 0 && addr + PAGE <= |d.img.data| && addr + PAGE < 0x1_0000
    requires d.ops == base + done && ReadBackAt(done, head, d.img.data, addr, [])
    modifies d`lines, d`waits, d`samples, d`ops
    ensures d.ops == base + done'
    ensures r == 0 || r == -EIO
    ensures r == 0 ==> next == addr + PAGE && ReadBackAt(done', head, d.img.data, next, [])
    ensures r == -EIO ==>
              && addr <= next < addr + PAGE && Cmds(done') == head + VerifyCmds(next + 1)
              && ReadVals(done') == d.img.data[..next] + [last] && last != d.img.data[next]
  {
    ghost var data := d.img.data;
    ghost var tp := PageStart(d, addr, 0x28);
    Assoc(base, done, tp);
    PendingJoin(done, head, d.img.data, addr as nat, tp);
    done' := done + tp;
    next, last := addr, val;
    while true
      invariant addr <= next < addr + PAGE
      invariant d.ops == base + done'
      invariant d.img.data == data
      invariant ReadBackAt(done', head, data, next, if next == addr then PageHead(next, 0x28) else [])
      decreases addr + PAGE - next
    {
      var same;
      same, last, done' := ReadNext(d, last, addr, next, base, head, done');
      if !same {
        return -EIO, next, last, done';
      }
      next := next + 1;
      PageEnd(addr as nat, next as nat);
      if next % PAGE == 0 {
        break;
      }
    }
    r := 0;
  }

  /**
   * What one tc360_verify_fw leaves in its register trace t with result r,
   * for an image data of length fwLen, n being the number of bytes read
   * back: the read-back of addresses 0 .. n-1 within the rounded length;
   * 0 exactly when the values read are the image up to the rounded length,
   * and -EIO when the last value read is the first that differs.
   */
  ghost predicate VerifyOutcome(t: seq<RegOp>, r: int, data: seq<byte>, fwLen: nat)
    requires fwLen <= 0xFFE0 && RoundUp(fwLen) <= |data|
  {
    var n := |ReadVals(t)|;
    && (r == 0 || r == -EIO)
    && n <= RoundUp(fwLen) && Cmds(t) == VerifyHead() + VerifyCmds(n)
    && (r == 0 <==> ReadVals(t) == data[..RoundUp(fwLen)])
    && (r == 0 ==> n == RoundUp(fwLen))
    && (r == -EIO ==> 0 < n && ReadVals(t)[..n - 1] == data[..n - 1] && ReadVals(t)[n - 1] != data[n - 1])
  }

  /**
   * tc360_verify_fw: the entry, then page by page while the address is
   * below fw_len, each byte read back and compared with the image, the
   * rest of the last page included. val is a local the driver never
   * initialises: init stands for its first value, which a first read that
   * is not taken leaves in place. Only a mismatch gives -EIO.
   */
  method VerifyFw(d: Tc360, init: byte) returns (r: int, ghost t: seq<RegOp>, ghost n: nat)
    requires !d.fwImgNull && d.img.fwLen <= 0xFFE0 && RoundUp(d.img.fwLen) <= |d.img.data|
    modifies d`lines, d`waits, d`samples, d`ops, d`countingTimer
    ensures d.ops == old(d.ops) + t
    ensures n == |ReadVals(t)| && VerifyOutcome(t, r, d.img.data, d.img.fwLen)
  {
    ghost var len := RoundUp(d.img.fwLen);
    t := VerifyEntry(d);
    assert ReadBackAt(t, VerifyHead(), d.img.data, 0, []);
    var addr: u16 := 0;
    var val := init;
    while addr < d.img.fwLen
      invariant addr % PAGE == 0 && addr <= len
      invariant d.ops == old(d.ops) + t && ReadBackAt(t, VerifyHead(), d.img.data, addr, [])
    {
      PageWalk(addr, d.img.fwLen);
      var ret;
      ret, addr, val, t := ReadBackPage(d, addr, val, old(d.ops), VerifyHead(), t);
      if ret < 0 {
        n := addr + 1;
        VerifyMismatch(d.img.data, len, ReadVals(t), addr);
        return -EIO, t, n;
      }
    }
    PageWalk(addr, d.img.fwLen);
    r, n := 0, addr;
    assert Cmds(t) == VerifyHead() + VerifyCmds(n) + [];
  }

  /** A read back that stopped on a mismatch at a is not the image. */
  lemma VerifyMismatch(data: seq<byte>, len: nat, vals: seq<byte>, a: nat)
    requires a < len <= |data| && |vals| == a + 1 && vals[..a] == data[..a] && vals[a] != data[a]
    ensures vals != data[..len]
  {
    assert data[..len][a] == data[a];
  }
}
