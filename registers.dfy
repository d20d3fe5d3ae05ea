/**
 * The register layer over the ISP transport: the debug-instruction and
 * special-channel write sequences and the fixed lists built from them.
 * Each write goes through `isp_master_send`; a sequence or-s the results
 * together and reports the first failure code it saw, which is always -EIO.
 */
module Registers {
  import opened Bits
  import opened Wire
  import opened Ops
  import opened Device

  /** `ret = ret | isp_master_send(...)`: both sides are 0 or -EIO, so is the result. */
  method Accumulate(ret: int, sent: int) returns (r: int)
    requires ret == 0 || ret == -EIO
    requires sent == 0 || sent == -EIO
    ensures r == BitOr(ret, sent)
    ensures r == 0 <==> ret == 0 && sent == 0
    ensures r == 0 || r == -EIO
  {
    BitOrZeroOrSelf(ret, sent);
    r := BitOr(ret, sent);
  }

  /**
   * `ret = ret | isp_master_send(data, reg, val)`: one more write of a fixed
   * sequence, the trace so far `done` (appended to `base`) extended by it.
   */
  method OrSend(d: Tc360, ret: int, ghost base: seq<RegOp>, ghost done: seq<RegOp>, reg: byte, val: byte)
    returns (r: int, ghost done': seq<RegOp>)
    requires ret == 0 || ret == -EIO
    requires d.ops == base + done && (ret == 0 <==> Acked(done))
    modifies d`lines, d`waits, d`samples, d`ops
    ensures d.ops == base + done' && Cmds(done') == Cmds(done) + [CWrite(reg, val)]
    ensures ReadVals(done') == ReadVals(done)
    ensures r == 0 <==> Acked(done')
    ensures r == 0 || r == -EIO
  {
    var sent := d.Send(reg, val);
    r := Accumulate(ret, sent);
    done' := done + [Write(reg, val, sent == 0)];
    Assoc(base, done, [Write(reg, val, sent == 0)]);
    CmdsConcat(done, [Write(reg, val, sent == 0)]);
    AckedConcat(done, [Write(reg, val, sent == 0)]);
    ReadValsConcat(done, [Write(reg, val, sent == 0)]);
    assert ReadVals([Write(reg, val, sent == 0)]) == [] by {
      assert [Write(reg, val, sent == 0)][..0] == [];
    }
    assert Acked([Write(reg, val, sent == 0)]) <==> sent == 0 by {
      assert [Write(reg, val, sent == 0)][0].ok == (sent == 0);
    }
  }

  /** raw_dbgir3: three debug-instruction bytes into 0xC2/0xC4/0xC6, then 0x80 into 0xC0. */
  method RawDbgir3(d: Tc360, d2: byte, d1: byte, d0: byte) returns (r: int, ghost t: seq<RegOp>)
    modifies d`lines, d`waits, d`samples, d`ops
    ensures d.ops == old(d.ops) + t && Cmds(t) == Dbgir3(d2, d1, d0)
    ensures ReadVals(t) == []
    ensures r == 0 <==> Acked(t)
    ensures r == 0 || r == -EIO
  {
    var ret := 0;
    t := [];
    assert d.ops == old(d.ops) + t;
    ret, t := OrSend(d, ret, old(d.ops), t, 0xc2, d2);
    ret, t := OrSend(d, ret, old(d.ops), t, 0xc4, d1);
    ret, t := OrSend(d, ret, old(d.ops), t, 0xc6, d0);
    ret, t := OrSend(d, ret, old(d.ops), t, 0xc0, 0x80);
    if ret < 0 {
      return ret, t;
    }
    return 0, t;
  }

  /** raw_dbgir2: a two-byte debug instruction. */
  method RawDbgir2(d: Tc360, d1: byte, d0: byte) returns (r: int, ghost t: seq<RegOp>)
    modifies d`lines, d`waits, d`samples, d`ops
    ensures d.ops == old(d.ops) + t && Cmds(t) == Dbgir2(d1, d0)
    ensures ReadVals(t) == []
    ensures r == 0 <==> Acked(t)
    ensures r == 0 || r == -EIO
  {
    var ret := 0;
    t := [];
    assert d.ops == old(d.ops) + t;
    ret, t := OrSend(d, ret, old(d.ops), t, 0xc2, d1);
    ret, t := OrSend(d, ret, old(d.ops), t, 0xc4, d0);
    ret, t := OrSend(d, ret, old(d.ops), t, 0xc0, 0x80);
    if ret < 0 {
      return ret, t;
    }
    return 0, t;
  }

  /** raw_spchl: two bytes into the special-channel registers 0xD0/0xD2. */
  method RawSpchl(d: Tc360, d1: byte, d0: byte) returns (r: int, ghost t: seq<RegOp>)
    modifies d`lines, d`waits, d`samples, d`ops
    ensures d.ops == old(d.ops) + t && Cmds(t) == Spchl(d1, d0)
    ensures ReadVals(t) == []
    ensures r == 0 <==> Acked(t)
    ensures r == 0 || r == -EIO
  {
    var ret := 0;
    t := [];
    assert d.ops == old(d.ops) + t;
    ret, t := OrSend(d, ret, old(d.ops), t, 0xd0, d1);
    ret, t := OrSend(d, ret, old(d.ops), t, 0xd2, d0);
    if ret < 0 {
      return ret, t;
    }
    return 0, t;
  }

  /** `ret = ret | raw_dbgir3(data, d2, d1, d0)`: one more debug instruction of a fixed list. */
  method OrDbgir3(d: Tc360, ret: int, ghost base: seq<RegOp>, ghost done: seq<RegOp>, d2: byte, d1: byte, d0: byte)
    returns (r: int, ghost done': seq<RegOp>)
    requires ret == 0 || ret == -EIO
    requires d.ops == base + done && (ret == 0 <==> Acked(done))
    modifies d`lines, d`waits, d`samples, d`ops
    ensures d.ops == base + done' && Cmds(done') == Cmds(done) + Dbgir3(d2, d1, d0)
    ensures ReadVals(done') == ReadVals(done)
    ensures r == 0 <==> Acked(done')
    ensures r == 0 || r == -EIO
  {
    var sent, t := RawDbgir3(d, d2, d1, d0);
    r := Accumulate(ret, sent);
    done' := done + t;
    Assoc(base, done, t);
    CmdsConcat(done, t);
    AckedConcat(done, t);
    ReadValsConcat(done, t);
  }

  /** isp_common_set: six fixed debug instructions, the failure code of any of them returned. */
  method CommonSetRun(d: Tc360) returns (r: int, ghost t: seq<RegOp>)
    modifies d`lines, d`waits, d`samples, d`ops
    ensures d.ops == old(d.ops) + t && Cmds(t) == CommonSet()
    ensures ReadVals(t) == []
    ensures r == 0 <==> Acked(t)
    ensures r == 0 || r == -EIO
  {
    var ret;
    ret, t := RawDbgir3(d, 0x75, 0x8f, 0x25);
    ret, t := OrDbgir3(d, ret, old(d.ops), t, 0x75, 0xc6, 0x0e);
    ret, t := OrDbgir3(d, ret, old(d.ops), t, 0x75, 0xf7, 0xc1);
    ret, t := OrDbgir3(d, ret, old(d.ops), t, 0x75, 0xf7, 0x1e);
    ret, t := OrDbgir3(d, ret, old(d.ops), t, 0x75, 0xf7, 0xec);
    ret, t := OrDbgir3(d, ret, old(d.ops), t, 0x75, 0xf7, 0x81);
    if ret < 0 {
      return ret, t;
    }
    return 0, t;
  }

  /** isp_ers_timing_set: the erase timing, three debug instructions. */
  method ErsTimingSet(d: Tc360) returns (r: int, ghost t: seq<RegOp>)
    modifies d`lines, d`waits, d`samples, d`ops
    ensures d.ops == old(d.ops) + t && Cmds(t) == ErsTiming()
    ensures ReadVals(t) == []
    ensures r == 0 <==> Acked(t)
    ensures r == 0 || r == -EIO
  {
    var ret;
    ret, t := RawDbgir3(d, 0x75, 0xf2, 0x20);
    ret, t := OrDbgir3(d, ret, old(d.ops), t, 0x75, 0xf3, 0xa1);
    ret, t := OrDbgir3(d, ret, old(d.ops), t, 0x75, 0xf4, 0x07);
    if ret < 0 {
      return ret, t;
    }
    return 0, t;
  }

  /** isp_pgm_timing_set: the program timing, three debug instructions. */
  method PgmTimingSet(d: Tc360) returns (r: int, ghost t: seq<RegOp>)
    modifies d`lines, d`waits, d`samples, d`ops
    ensures d.ops == old(d.ops) + t && Cmds(t) == PgmTiming()
    ensures ReadVals(t) == []
    ensures r == 0 <==> Acked(t)
    ensures r == 0 || r == -EIO
  {
    var ret;
    ret, t := RawDbgir3(d, 0x75, 0xf2, 0xe8);
    ret, t := OrDbgir3(d, ret, old(d.ops), t, 0x75, 0xf3, 0x03);
    ret, t := OrDbgir3(d, ret, old(d.ops), t, 0x75, 0xf4, 0x00);
    if ret < 0 {
      return ret, t;
    }
    return 0, t;
  }
}
