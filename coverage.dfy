/**
 * What the flash phases tell the controller, read back out of their
 * command lists without reference to how those lists were built: the
 * flash addresses set through debug instruction 0x90 and the bytes loaded
 * for programming through debug instruction 0x74. The lemmas show that
 * the erase sets exactly the block bases, the write loads every image
 * byte of the rounded length once and in order, and write and read-back
 * set exactly the page bases.
 */
module Coverage {
  import opened Bits
  import opened Wire
  import opened Ops

  /** The 0xC2 writes that start the two instructions of interest. */
  const LOAD_BYTE: Cmd := CWrite(0xc2, 0x74)
  const SET_ADDRESS: Cmd := CWrite(0xc2, 0x90)

  predicate WritesTo(c: Cmd, reg: byte)
  {
    c.CWrite? && c.reg == reg
  }

  /** The operand of a 0x74 instruction written as the pair x, y, if it is one. */
  function LoadOf(x: Cmd, y: Cmd): seq<byte>
  {
    if x == LOAD_BYTE && WritesTo(y, 0xc4) then [y.val] else []
  }

  /** The operands of the 0x74 instructions that end among the first n commands of c. */
  function LoadedTo(c: seq<Cmd>, n: nat): seq<byte>
    requires n <= |c|
  {
    if n < 2 then [] else LoadedTo(c, n - 1) + LoadOf(c[n - 2], c[n - 1])
  }

  /** The operand of every 0x74 instruction (0xC2 then 0xC4), in order. */
  function Loaded(c: seq<Cmd>): seq<byte>
  {
    LoadedTo(c, |c|)
  }

  /** The address of a 0x90 instruction written as x, y, z, if it is one. */
  function AddressOf(x: Cmd, y: Cmd, z: Cmd): seq<nat>
  {
    if x == SET_ADDRESS && WritesTo(y, 0xc4) && WritesTo(z, 0xc6) then [y.val * 0x100 + z.val] else []
  }

  /** The addresses of the 0x90 instructions that end among the first n commands of c. */
  function AddressedTo(c: seq<Cmd>, n: nat): seq<nat>
    requires n <= |c|
  {
    if n < 3 then [] else AddressedTo(c, n - 1) + AddressOf(c[n - 3], c[n - 2], c[n - 1])
  }

  /** The address of every 0x90 instruction (0xC2, high byte to 0xC4, low byte to 0xC6), in order. */
  function Addressed(c: seq<Cmd>): seq<nat>
  {
    AddressedTo(c, |c|)
  }

  /** `c` does not stop inside an instruction: its last command writes neither 0xC2 nor 0xC4. */
  predicate Closed(c: seq<Cmd>)
  {
    c == [] || !(WritesTo(c[|c| - 1], 0xc2) || WritesTo(c[|c| - 1], 0xc4))
  }

  /** No command of `c` starts either instruction. */
  predicate Quiet(c: seq<Cmd>)
  {
    forall i :: 0 <= i < |c| ==> c[i] != LOAD_BYTE && c[i] != SET_ADDRESS
  }

  /** The page bases below n: 0, 0x20, 0x40, ... */
  function PageBases(n: nat): (s: seq<nat>)
    ensures |s| == (n + PAGE - 1) / PAGE
  {
    seq((n + PAGE - 1) / PAGE, k => k * PAGE)
  }

  /** The erase block bases of the first n blocks: 0, 0x400, 0x800, ... */
  function BlockBases(n: nat): seq<nat>
  {
    seq(n, k => k * BLOCK)
  }

  // ---------------------------------------------------------------- extraction over concatenation

  /** What ends among the first n commands does not see what follows them. */
  lemma {:induction false} PrefixTo(a: seq<Cmd>, b: seq<Cmd>, n: nat)
    requires n <= |a|
    ensures LoadedTo(a + b, n) == LoadedTo(a, n) && AddressedTo(a + b, n) == AddressedTo(a, n)
  {
    if n >= 2 {
      PrefixTo(a, b, n - 1);
    }
  }

  /** Behind a closed list, the first k commands of b yield what they yield alone. */
  lemma {:induction false} ShiftTo(a: seq<Cmd>, b: seq<Cmd>, k: nat)
    requires Closed(a) && k <= |b|
    ensures LoadedTo(a + b, |a| + k) == Loaded(a) + LoadedTo(b, k)
    ensures AddressedTo(a + b, |a| + k) == Addressed(a) + AddressedTo(b, k)
  {
    var ab := a + b;
    var n := |a| + k;
    if k == 0 {
      PrefixTo(a, b, |a|);
    } else {
      ShiftTo(a, b, k - 1);
      assert ab[n - 1] == b[k - 1];
      if n >= 2 {
        var l := LoadOf(ab[n - 2], ab[n - 1]);
        Assoc(Loaded(a), LoadedTo(b, k - 1), l);
        if k == 1 {
          assert l == [];
        } else {
          assert ab[n - 2] == b[k - 2];
        }
      }
      if n >= 3 {
        var t := AddressOf(ab[n - 3], ab[n - 2], ab[n - 1]);
        Assoc(Addressed(a), AddressedTo(b, k - 1), t);
        if k <= 2 {
          assert t == [] by {
            if k == 1 {
              assert ab[n - 2] == a[|a| - 1];
            } else {
              assert ab[n - 3] == a[|a| - 1];
            }
          }
        } else {
          assert ab[n - 3] == b[k - 3] && ab[n - 2] == b[k - 2];
        }
      }
    }
  }

  lemma LoadedConcat(a: seq<Cmd>, b: seq<Cmd>)
    requires Closed(a)
    ensures Loaded(a + b) == Loaded(a) + Loaded(b)
  {
    ShiftTo(a, b, |b|);
  }

  lemma AddressedConcat(a: seq<Cmd>, b: seq<Cmd>)
    requires Closed(a)
    ensures Addressed(a + b) == Addressed(a) + Addressed(b)
  {
    ShiftTo(a, b, |b|);
  }

  lemma ClosedConcat(a: seq<Cmd>, b: seq<Cmd>)
    requires Closed(a) && Closed(b)
    ensures Closed(a + b)
  {
    if b != [] {
      assert (a + b)[|a + b| - 1] == b[|b| - 1];
    }
  }

  /** A list without either instruction yields nothing. */
  lemma {:induction false} QuietTo(c: seq<Cmd>, n: nat)
    requires Quiet(c) && n <= |c|
    ensures LoadedTo(c, n) == [] && AddressedTo(c, n) == []
  {
    if n >= 2 {
      QuietTo(c, n - 1);
      assert c[n - 2] != LOAD_BYTE;
      if n >= 3 {
        assert c[n - 3] != SET_ADDRESS;
      }
    }
  }

  lemma QuietEmpty(c: seq<Cmd>)
    requires Quiet(c)
    ensures Loaded(c) == [] && Addressed(c) == []
  {
    QuietTo(c, |c|);
  }

  /** Quiet lists stay quiet when joined. */
  lemma QuietConcat(a: seq<Cmd>, b: seq<Cmd>)
    requires Quiet(a) && Quiet(b)
    ensures Quiet(a + b)
  {
    forall i | 0 <= i < |a + b| ensures (a + b)[i] != LOAD_BYTE && (a + b)[i] != SET_ADDRESS {
      if i >= |a| {
        assert (a + b)[i] == b[i - |a|];
      }
    }
  }

  // ---------------------------------------------------------------- the pieces

  /** Reset, mode entry and isp_common_set name no address and load no byte. */
  lemma EntryQuiet()
    ensures Quiet(EraseHead()) && Closed(EraseHead())
  {
    var c := CommonSet();
    assert Quiet(c) && Closed(c);
    QuietConcat([CReset, CModeEntry], c);
    ClosedConcat([CReset, CModeEntry], c);
  }

  /** The erase's fixed head names no address and loads no byte. */
  lemma EraseHeadQuiet()
    ensures Quiet(EraseHead() + EraseSetup()) && Closed(EraseHead() + EraseSetup())
  {
    EntryQuiet();
    assert Quiet(EraseSetup()) && Closed(EraseSetup());
    QuietConcat(EraseHead(), EraseSetup());
    ClosedConcat(EraseHead(), EraseSetup());
  }

  /** The write's fixed head names no address and loads no byte. */
  lemma WriteHeadQuiet()
    ensures Quiet(WriteHead()) && Closed(WriteHead())
  {
    EntryQuiet();
    var tail := PgmTiming() + Select(PROGRAM_MODE);
    assert Quiet(tail) && Closed(tail);
    QuietConcat(EraseHead(), tail);
    ClosedConcat(EraseHead(), tail);
    assert WriteHead() == EraseHead() + tail;
  }

  /** The read-back's fixed head names no address and loads no byte. */
  lemma VerifyHeadQuiet()
    ensures Quiet(VerifyHead()) && Closed(VerifyHead())
  {
    EntryQuiet();
    assert Quiet(Select(READ_MODE)) && Closed(Select(READ_MODE));
    QuietConcat(EraseHead(), Select(READ_MODE));
    ClosedConcat(EraseHead(), Select(READ_MODE));
  }

  /** Setting an address names exactly that address. */
  lemma SetAddressNames(addr: u16)
    ensures Addressed(SetAddress(addr)) == [addr] && Loaded(SetAddress(addr)) == []
    ensures Closed(SetAddress(addr))
  {
    var c := SetAddress(addr);
    assert LoadedTo(c, 2) == [] && LoadedTo(c, 3) == [];
    assert AddressedTo(c, 3) == [addr];
    assert AddressedTo(c, 4) == [addr];
  }

  /** A page head names its page's address. */
  lemma PageHeadNames(addr: u16, ch: byte)
    ensures Addressed(PageHead(addr, ch)) == [addr] && Loaded(PageHead(addr, ch)) == []
    ensures Closed(PageHead(addr, ch))
  {
    SetAddressNames(addr);
    AddressedConcat(SetAddress(addr), Spchl(0xff, ch));
    LoadedConcat(SetAddress(addr), Spchl(0xff, ch));
    QuietEmpty(Spchl(0xff, ch));
  }

  /** Programming one byte loads that byte and names no address. */
  lemma StepsLoad(b: byte)
    ensures Loaded(ProgramSteps(b)) == [b] && Addressed(ProgramSteps(b)) == []
    ensures Closed(ProgramSteps(b))
  {
    var rest := Dbgir3(0x75, 0xf1, 0x80) + [CWrite(0xc0, 0x14), CWrite(0xc0, 0x08)];
    assert ProgramSteps(b) == Dbgir2(0x74, b) + rest;
    assert Quiet(rest);
    QuietEmpty(rest);
    LoadedConcat(Dbgir2(0x74, b), rest);
    AddressedConcat(Dbgir2(0x74, b), rest);
    var d := Dbgir2(0x74, b);
    assert LoadedTo(d, 2) == [b];
    assert AddressedTo(d, 2) == [] && AddressOf(d[0], d[1], d[2]) == [];
    assert Loaded(d) == [b] && Addressed(d) == [];
  }

  lemma PageBasesSnoc(n: nat)
    requires n > 0
    ensures PageBases(n) == PageBases(n - 1) + (if (n - 1) % PAGE == 0 then [n - 1] else [])
  {
    var q := (n - 1) / PAGE;
    var r := (n - 1) % PAGE;
    assert n - 1 == q * PAGE + r;
    assert n + PAGE - 1 == (q + 1) * PAGE + r;
    assert (n + PAGE - 1) / PAGE == q + 1;
    if r == 0 {
      assert n - 1 + PAGE - 1 == q * PAGE + (PAGE - 1);
      assert (n - 1 + PAGE - 1) / PAGE == q;
    } else {
      assert n - 1 + PAGE - 1 == (q + 1) * PAGE + (r - 1);
      assert (n - 1 + PAGE - 1) / PAGE == q + 1;
    }
  }

  // ---------------------------------------------------------------- the phases

  /** Programming the byte at a loads it and names the page's base when a starts one. */
  lemma ProgramByteLoads(data: seq<byte>, a: u16)
    requires a < |data|
    ensures Loaded(ProgramByte(data, a)) == [data[a]]
    ensures Addressed(ProgramByte(data, a)) == (if a % PAGE == 0 then [a] else [])
    ensures Closed(ProgramByte(data, a))
  {
    var head := if a % PAGE == 0 then PageHead(a, 0x1e) else [];
    StepsLoad(data[a]);
    if a % PAGE == 0 {
      PageHeadNames(a, 0x1e);
    }
    LoadedConcat(head, ProgramSteps(data[a]));
    AddressedConcat(head, ProgramSteps(data[a]));
    ClosedConcat(head, ProgramSteps(data[a]));
  }

  /**
   * Programming addresses 0 .. n-1 loads exactly the image bytes
   * data[0 .. n-1], in order and each once, and sets exactly the page
   * bases below n.
   */
  lemma {:induction false} ProgramCoverage(data: seq<byte>, n: nat)
    requires n <= |data| && n <= 0x1_0000
    ensures Loaded(ProgramCmds(data, n)) == data[..n]
    ensures Addressed(ProgramCmds(data, n)) == PageBases(n)
    ensures Closed(ProgramCmds(data, n))
  {
    if n > 0 {
      var a: u16 := n - 1;
      var prev := ProgramCmds(data, a);
      ProgramCoverage(data, a);
      ProgramByteLoads(data, a);
      LoadedConcat(prev, ProgramByte(data, a));
      AddressedConcat(prev, ProgramByte(data, a));
      ClosedConcat(prev, ProgramByte(data, a));
      SliceSnoc(data, a);
      PageBasesSnoc(n);
    }
  }

  /**
   * tc360_write_fw, seen through what it tells the controller: it loads
   * data[0 .. RoundUp(fw_len)-1] in order, past fw_len when the last page
   * is partial, and sets ceil(fw_len / 0x20) page addresses 0, 0x20, ...
   */
  lemma WriteCoverage(data: seq<byte>, fwLen: nat)
    requires fwLen <= 0xFFE0 && RoundUp(fwLen) <= |data|
    ensures var c := WriteHead() + ProgramCmds(data, RoundUp(fwLen));
      && Loaded(c) == data[..RoundUp(fwLen)]
      && Addressed(c) == PageBases(RoundUp(fwLen))
      && |Addressed(c)| == (fwLen + PAGE - 1) / PAGE
  {
    RoundUpBounds(fwLen);
    WriteHeadQuiet();
    QuietEmpty(WriteHead());
    ProgramCoverage(data, RoundUp(fwLen));
    LoadedConcat(WriteHead(), ProgramCmds(data, RoundUp(fwLen)));
    AddressedConcat(WriteHead(), ProgramCmds(data, RoundUp(fwLen)));
  }

  /** Reading back one byte loads nothing and names the page's base when it starts one. */
  lemma ReadBackNames(a: u16)
    ensures Loaded(ReadBack(a)) == [] && Addressed(ReadBack(a)) == (if a % PAGE == 0 then [a] else [])
    ensures Closed(ReadBack(a))
  {
    var head := if a % PAGE == 0 then PageHead(a, 0x28) else [];
    assert Quiet(ReadSteps()) && Closed(ReadSteps());
    QuietEmpty(ReadSteps());
    if a % PAGE == 0 {
      PageHeadNames(a, 0x28);
    }
    LoadedConcat(head, ReadSteps());
    AddressedConcat(head, ReadSteps());
    ClosedConcat(head, ReadSteps());
  }

  /** Reading back addresses 0 .. n-1 loads nothing and sets exactly the page bases below n. */
  lemma {:induction false} ReadBackCoverage(n: nat)
    requires n <= 0x1_0000
    ensures Loaded(VerifyCmds(n)) == [] && Addressed(VerifyCmds(n)) == PageBases(n)
    ensures Closed(VerifyCmds(n))
  {
    if n > 0 {
      var a: u16 := n - 1;
      ReadBackCoverage(a);
      ReadBackNames(a);
      LoadedConcat(VerifyCmds(a), ReadBack(a));
      AddressedConcat(VerifyCmds(a), ReadBack(a));
      ClosedConcat(VerifyCmds(a), ReadBack(a));
      PageBasesSnoc(n);
    }
  }

  /**
   * tc360_verify_fw, seen the same way: a read-back that stopped after n
   * bytes (all of the rounded length, or up to the first mismatch) has set
   * the page bases below n and no other address.
   */
  lemma VerifyCoverage(n: nat)
    requires n <= 0x1_0000
    ensures Addressed(VerifyHead() + VerifyCmds(n)) == PageBases(n)
    ensures Loaded(VerifyHead() + VerifyCmds(n)) == []
  {
    VerifyHeadQuiet();
    QuietEmpty(VerifyHead());
    ReadBackCoverage(n);
    LoadedConcat(VerifyHead(), VerifyCmds(n));
    AddressedConcat(VerifyHead(), VerifyCmds(n));
  }

  /** One erase block names its base address. */
  lemma BlockStartNames(addr: u16, polls: nat)
    ensures Addressed(BlockStart(addr) + Polls(polls)) == [addr]
    ensures Closed(BlockStart(addr) + Polls(polls))
  {
    var pre := Dbgir3(0x75, 0xf1, 0x80);
    var post := Spchl(0xff, 0x3a) + [CWrite(0xc0, 0x14)] + Polls(polls);
    assert BlockStart(addr) + Polls(polls) == pre + (SetAddress(addr) + post);
    assert Quiet(post) && Closed(post);
    QuietEmpty(post);
    QuietEmpty(pre);
    SetAddressNames(addr);
    AddressedConcat(SetAddress(addr), post);
    ClosedConcat(SetAddress(addr), post);
    AddressedConcat(pre, SetAddress(addr) + post);
  }

  /** The erase blocks started so far name their bases 0, 0x400, ..., in order. */
  lemma {:induction false} EraseBlocksCoverage(polls: seq<seq<byte>>)
    requires |polls| <= 32
    ensures Addressed(EraseBlocks(polls)) == BlockBases(|polls|) && Closed(EraseBlocks(polls))
  {
    if polls != [] {
      var k := |polls| - 1;
      var prev := EraseBlocks(polls[..k]);
      var block := BlockStart(k * BLOCK) + Polls(|polls[k]|);
      EraseBlocksCoverage(polls[..k]);
      BlockStartNames(k * BLOCK, |polls[k]|);
      AddressedConcat(prev, block);
      ClosedConcat(prev, block);
      Assoc(prev, BlockStart(k * BLOCK), Polls(|polls[k]|));
      assert BlockBases(|polls|) == BlockBases(k) + [k * BLOCK];
    }
  }

  /**
   * tc360_erase_fw, seen the same way: an erase that completed has set
   * exactly the 32 block bases 0, 0x400, ..., 0x7C00 in order, whatever
   * fw_len is, so it sets an address exactly when that is a multiple of
   * 0x400 below 0x8000.
   */
  lemma EraseCoverage(polls: seq<seq<byte>>)
    requires |polls| == 32
    ensures Addressed(EraseHead() + EraseSetup() + EraseBlocks(polls)) == BlockBases(32)
    ensures forall a: nat :: a in Addressed(EraseHead() + EraseSetup() + EraseBlocks(polls)) <==>
              a % 0x400 == 0 && a < ER_MAX_LEN
  {
    EraseHeadQuiet();
    QuietEmpty(EraseHead() + EraseSetup());
    EraseBlocksCoverage(polls);
    AddressedConcat(EraseHead() + EraseSetup(), EraseBlocks(polls));
    forall a: nat
      ensures a in BlockBases(32) <==> a % 0x400 == 0 && a < ER_MAX_LEN
    {
      EraseBases(a);
      if a in BlockBases(32) {
        var k :| 0 <= k < 32 && BlockBases(32)[k] == a;
      }
      if a % 0x400 == 0 && a < ER_MAX_LEN {
        var k :| 0 <= k < 32 && a == k * BLOCK;
        assert BlockBases(32)[k] == a;
      }
    }
  }
}
