/**
 * Driving a firmware update: reading the IC's version over SMBus with
 * power-cycling retries, loading and releasing an image by its source,
 * deciding whether to flash, and the worker that runs erase, write and
 * verify with their retry budgets and settles the device state.
 */
module Update {
  import opened Bits
  import opened Wire
  import opened Ops
  import opened Device
  import opened Flash

  /** Where a firmware image comes from (fw_path). */
  const FW_BUILT_IN: byte := 0
  const FW_HEADER: byte := 1
  const FW_IN_SDCARD: byte := 2
  const FW_EX_SDCARD: byte := 3

  /** tc360_flash_fw's positive results. */
  const HAVE_LATEST_FW := 1
  const FW_UPDATE_RUNNING := 2

  /** Retry budgets: a phase runs at most budget + 1 times. */
  const FW_FLASH_RETRY: nat := 5
  const FW_VER_READ: nat := 5
  const VERSION_RETRIES: nat := 3

  /** SMBus commands of the running firmware. */
  const CMD_FW_VER: byte := 1
  const CMD_MODULE_VER: byte := 2

  const ENOENT := 2
  const ENOMEM := 12

  // ---------------------------------------------------------------- version read

  /** The value a retried read settles on and the index of the next SMBus answer. */
  datatype Reading = Reading(value: int, next: nat)

  /**
   * A read that is repeated, after a power cycle, while it comes back
   * negative and retries remain; `n` is the index of the first answer.
   */
  function VersionRead(answers: nat -> int, n: nat, retries: nat): (res: Reading)
    decreases retries
    ensures n < res.next <= n + retries + 1
    ensures res.value == answers(res.next - 1)
  {
    if answers(n) >= 0 || retries == 0 then Reading(answers(n), n + 1)
    else VersionRead(answers, n + 1, retries - 1)
  }

  /** The register-level trace of that read: each read, and a power cycle before every repeat. */
  function VersionOps(answers: nat -> int, cmd: byte, n: nat, retries: nat): seq<RegOp>
    decreases retries, 1
  {
    [SmbusRead(cmd, answers(n))] + VersionTail(answers, cmd, n, retries)
  }

  /** What follows the read of answer `n` in `VersionOps`. */
  function VersionTail(answers: nat -> int, cmd: byte, n: nat, retries: nat): seq<RegOp>
    decreases retries, 0
  {
    if answers(n) >= 0 || retries == 0 then []
    else [PowerCycle] + VersionOps(answers, cmd, n + 1, retries - 1)
  }

  /**
   * Every answer before the one the read settles on was negative, and a
   * negative result means the retries ran out.
   */
  lemma {:induction false} VersionReadRetries(answers: nat -> int, n: nat, retries: nat)
    ensures var res := VersionRead(answers, n, retries);
      && (forall j :: n <= j < res.next - 1 ==> answers(j) < 0)
      && (res.value < 0 ==> res.next == n + retries + 1)
    decreases retries
  {
    if answers(n) >= 0 || retries == 0 {
    } else {
      VersionReadRetries(answers, n + 1, retries - 1);
    }
  }

  /** Every read of the trace is of `cmd`, and there is one power cycle fewer than reads. */
  lemma {:induction false} VersionOpsShape(answers: nat -> int, cmd: byte, n: nat, retries: nat)
    ensures var ops := VersionOps(answers, cmd, n, retries);
      && |ops| == 2 * (VersionRead(answers, n, retries).next - n) - 1
      && (forall i :: 0 <= i < |ops| ==> (ops[i].SmbusRead? <==> i % 2 == 0))
      && (forall i :: 0 <= i < |ops| && ops[i].SmbusRead? ==> ops[i].cmd == cmd && ops[i].ret == answers(n + i / 2))
    decreases retries
  {
    if answers(n) >= 0 || retries == 0 {
    } else {
      VersionOpsShape(answers, cmd, n + 1, retries - 1);
      var rest := VersionOps(answers, cmd, n + 1, retries - 1);
      var ops := VersionOps(answers, cmd, n, retries);
      assert ops == [SmbusRead(cmd, answers(n)), PowerCycle] + rest;
      forall i | 2 <= i < |ops|
        ensures ops[i] == rest[i - 2]
      {
      }
    }
  }

  /**
   * tc360_get_fw_ver / tc360_get_module_ver: read `cmd`, and while the
   * answer is negative and one of the three retries is left, cycle the
   * power and read again; the last answer is returned.
   */
  method ReadRetried(d: Tc360, cmd: byte) returns (v: int)
    modifies d`smbusReads, d`ops
    ensures var res := VersionRead(d.smbus, old(d.smbusReads), VERSION_RETRIES);
      v == res.value && d.smbusReads == res.next
    ensures d.ops == old(d.ops) + VersionOps(d.smbus, cmd, old(d.smbusReads), VERSION_RETRIES)
  {
    ghost var n0 := d.smbusReads;
    ghost var start := d.ops;
    var retries: nat := VERSION_RETRIES;
    v := d.SmbusReadByte(cmd);
    ghost var done := [SmbusRead(cmd, v)];
    while v < 0 && retries > 0
      invariant retries <= VERSION_RETRIES && d.smbusReads > n0
      invariant ReadAt(d.smbus, cmd, n0, d.smbusReads - 1, retries, v, start, done, d.ops)
      decreases retries
    {
      v, done := ReadAgain(d, cmd, n0, retries, v, start, done);
      retries := retries - 1;
    }
  }

  /**
   * The state of the retry loop after reading answer `k` with `retries`
   * left: the remaining trace is what `VersionOps` still expects.
   */
  ghost predicate ReadAt(ans: nat -> int, cmd: byte, n0: nat, k: nat, retries: nat, v: int,
                         start: seq<RegOp>, done: seq<RegOp>, ops: seq<RegOp>)
  {
    && v == ans(k)
    && VersionRead(ans, n0, VERSION_RETRIES) == VersionRead(ans, k, retries)
    && ops == start + done
    && VersionOps(ans, cmd, n0, VERSION_RETRIES) == done + VersionTail(ans, cmd, k, retries)
  }

  /** One turn of the loop: cycle the power and read again. */
  method ReadAgain(d: Tc360, cmd: byte, ghost n0: nat, retries: nat, v: int, ghost start: seq<RegOp>, ghost done: seq<RegOp>)
    returns (v': int, ghost done': seq<RegOp>)
    requires d.smbusReads > 0 && v < 0 && retries > 0
    requires ReadAt(d.smbus, cmd, n0, d.smbusReads - 1, retries, v, start, done, d.ops)
    modifies d`smbusReads, d`ops
    ensures d.smbusReads == old(d.smbusReads) + 1
    ensures ReadAt(d.smbus, cmd, n0, d.smbusReads - 1, retries - 1, v', start, done', d.ops)
  {
    ghost var k := d.smbusReads - 1;
    TailStep(d.smbus, cmd, k, retries);
    Assoc(done, [PowerCycle, SmbusRead(cmd, d.smbus(k + 1))], VersionTail(d.smbus, cmd, k + 1, retries - 1));
    d.CyclePower();
    v' := d.SmbusReadByte(cmd);
    Assoc(start, done, [PowerCycle]);
    Assoc(start, done + [PowerCycle], [SmbusRead(cmd, v')]);
    done' := done + [PowerCycle, SmbusRead(cmd, v')];
  }

  /** One repeat of the read: a power cycle and the next answer. */
  lemma TailStep(answers: nat -> int, cmd: byte, n: nat, retries: nat)
    requires answers(n) < 0 && retries > 0
    ensures VersionTail(answers, cmd, n, retries)
         == [PowerCycle, SmbusRead(cmd, answers(n + 1))] + VersionTail(answers, cmd, n + 1, retries - 1)
  {
  }

  /** tc360_get_fw_ver. */
  method GetFwVer(d: Tc360) returns (v: int)
    modifies d`smbusReads, d`ops
    ensures var res := VersionRead(d.smbus, old(d.smbusReads), VERSION_RETRIES);
      v == res.value && d.smbusReads == res.next
    ensures d.ops == old(d.ops) + VersionOps(d.smbus, CMD_FW_VER, old(d.smbusReads), VERSION_RETRIES)
  {
    v := ReadRetried(d, CMD_FW_VER);
  }

  /** tc360_get_module_ver (multi-PCB builds). */
  method GetModuleVer(d: Tc360) returns (v: int)
    modifies d`smbusReads, d`ops
    ensures var res := VersionRead(d.smbus, old(d.smbusReads), VERSION_RETRIES);
      v == res.value && d.smbusReads == res.next
    ensures d.ops == old(d.ops) + VersionOps(d.smbus, CMD_MODULE_VER, old(d.smbusReads), VERSION_RETRIES)
  {
    v := ReadRetried(d, CMD_MODULE_VER);
  }

  // ---------------------------------------------------------------- retry runs

  /**
   * The results of a phase run under `goto`-retry with `budget` retries:
   * every attempt but the last failed, and the last failed only when the
   * budget was spent.
   */
  ghost predicate RetryRun(results: seq<int>, budget: nat)
  {
    && 1 <= |results| <= budget + 1
    && (forall i :: 0 <= i < |results| - 1 ==> results[i] < 0)
    && (results[|results| - 1] < 0 ==> |results| == budget + 1)
  }

  /** The phase ended in success. */
  ghost predicate Succeeded(results: seq<int>)
  {
    |results| > 0 && results[|results| - 1] >= 0
  }

  /**
   * The attempts of a phase so far: every one but the last failed, and
   * `ok` says whether the last succeeded.
   */
  ghost predicate Attempts(results: seq<int>, ok: bool)
  {
    && (ok <==> Succeeded(results))
    && (forall i :: 0 <= i < |results| - 1 ==> results[i] < 0)
  }

  /** One more attempt after a failure. */
  lemma AttemptsStep(results: seq<int>, r: int)
    requires Attempts(results, false)
    ensures Attempts(results + [r], r >= 0)
  {
  }

  /** Attempts that stopped on success, or after budget + 1 failures, are a retry run. */
  lemma AttemptsDone(results: seq<int>, ok: bool, budget: nat)
    requires Attempts(results, ok) && |results| <= budget + 1 && (ok || |results| == budget + 1)
    ensures RetryRun(results, budget)
  {
  }

  /** A run stopped by a failure has used every attempt; one that stopped early succeeded. */
  lemma {:induction false} RetryRunOutcome(results: seq<int>, budget: nat)
    requires RetryRun(results, budget)
    ensures !Succeeded(results) ==> |results| == budget + 1 && forall i :: 0 <= i < |results| ==> results[i] < 0
    ensures |results| < budget + 1 ==> Succeeded(results)
  {
    if !Succeeded(results) {
      forall i | 0 <= i < |results|
        ensures results[i] < 0
      {
        if i < |results| - 1 {
        } else {
          assert results[i] == results[|results| - 1];
        }
      }
    }
  }

  /*
   * Each phase below is the worker's `goto` retry written as a loop:
   * attempt, and while the attempt failed and `retries-- > 0`, attempt
   * again.
   */

  /** The trace t of one tc360_erase_fw that returned r, for some list of status polls. */
  ghost predicate Erased(t: seq<RegOp>, r: int)
  {
    exists polls :: EraseOutcome(t, r, polls)
  }

  /** Each erase attempt's result is what tc360_erase_fw returns for its trace. */
  ghost predicate AllErased(ts: seq<seq<RegOp>>, results: seq<int>)
  {
    |ts| == |results| && forall i {:trigger Erased(ts[i], results[i])} :: 0 <= i < |results| ==> Erased(ts[i], results[i])
  }

  /** Each verify attempt's result is what tc360_verify_fw returns for its trace and the image. */
  ghost predicate AllVerified(ts: seq<seq<RegOp>>, results: seq<int>, data: seq<byte>, fwLen: nat)
    requires fwLen <= 0xFFE0 && RoundUp(fwLen) <= |data|
  {
    |ts| == |results| && forall i {:trigger VerifyOutcome(ts[i], results[i], data, fwLen)} ::
      0 <= i < |results| ==> VerifyOutcome(ts[i], results[i], data, fwLen)
  }

  /** One more verify attempt, described by its own trace. */
  lemma AllVerifiedSnoc(ts: seq<seq<RegOp>>, results: seq<int>, t: seq<RegOp>, r: int, data: seq<byte>, fwLen: nat)
    requires fwLen <= 0xFFE0 && RoundUp(fwLen) <= |data|
    requires AllVerified(ts, results, data, fwLen) && VerifyOutcome(t, r, data, fwLen)
    ensures AllVerified(ts + [t], results + [r], data, fwLen)
  {
    forall i | 0 <= i < |results| + 1
      ensures VerifyOutcome((ts + [t])[i], (results + [r])[i], data, fwLen)
    {
      if i < |results| {
        assert (ts + [t])[i] == ts[i] && (results + [r])[i] == results[i];
      }
    }
  }

  /**
   * Erase, retried: the register trace is the attempts' traces one after
   * another, and each attempt's result is what tc360_erase_fw returns for
   * its trace.
   */
  method EraseRetried(d: Tc360) returns (ok: bool, ghost results: seq<int>, ghost ts: seq<seq<RegOp>>)
    modifies d`lines, d`waits, d`samples, d`ops, d`countingTimer
    ensures RetryRun(results, FW_FLASH_RETRY) && (ok <==> Succeeded(results))
    ensures forall i :: 0 <= i < |results| ==> results[i] in {0, -EIO, -ENOSYS}
    ensures d.ops == old(d.ops) + Flatten(ts) && AllErased(ts, results)
  {
    var retries: int := FW_FLASH_RETRY;
    ok, results, ts := false, [], [];
    while !ok && retries >= 0
      invariant -1 <= retries <= FW_FLASH_RETRY && |results| == FW_FLASH_RETRY - retries
      invariant Attempts(results, ok)
      invariant forall i :: 0 <= i < |results| ==> results[i] in {0, -EIO, -ENOSYS}
      invariant d.ops == old(d.ops) + Flatten(ts) && AllErased(ts, results)
      decreases retries + 1
    {
      var ret, t, polls := EraseFw(d);
      assert Erased(t, ret);
      AttemptsStep(results, ret);
      Assoc(old(d.ops), Flatten(ts), t);
      FlattenSnoc(ts, t);
      results, ts := results + [ret], ts + [t];
      ok := ret >= 0;
      retries := retries - 1;
    }
    AttemptsDone(results, ok, FW_FLASH_RETRY);
  }

  /**
   * Write, retried: tc360_write_fw never fails, so it runs exactly once,
   * and the trace is its programming of the whole rounded image.
   */
  method WriteRetried(d: Tc360) returns (ok: bool, ghost results: seq<int>, ghost t: seq<RegOp>)
    requires !d.fwImgNull && d.img.fwLen <= 0xFFE0 && RoundUp(d.img.fwLen) <= |d.img.data|
    modifies d`lines, d`waits, d`samples, d`ops, d`countingTimer
    ensures ok && results == [0] && RetryRun(results, FW_FLASH_RETRY)
    ensures d.ops == old(d.ops) + t && Cmds(t) == WriteHead() + ProgramCmds(d.img.data, RoundUp(d.img.fwLen))
  {
    var retries: int := FW_FLASH_RETRY;
    ok, results, t := false, [], [];
    while !ok && retries >= 0
      invariant -1 <= retries <= FW_FLASH_RETRY && |results| == FW_FLASH_RETRY - retries
      invariant results == (if ok then [0] else [])
      invariant d.ops == old(d.ops) + t
      invariant ok ==> Cmds(t) == WriteHead() + ProgramCmds(d.img.data, RoundUp(d.img.fwLen))
      invariant !ok ==> t == []
      decreases retries + 1
    {
      var ret, tw := WriteFw(d);
      assert old(d.ops) + t + tw == old(d.ops) + tw;
      results, t := results + [ret], tw;
      ok := ret >= 0;
      retries := retries - 1;
    }
  }

  /**
   * Verify, retried; `garbage(i)` is what the uninitialised `val` of the
   * i-th attempt holds before its first read. The register trace is the
   * attempts' traces one after another, and each attempt succeeded exactly
   * when what it read back was the image.
   */
  method VerifyRetried(d: Tc360, garbage: nat -> byte) returns (ok: bool, ghost results: seq<int>, ghost ts: seq<seq<RegOp>>)
    requires !d.fwImgNull && d.img.fwLen <= 0xFFE0 && RoundUp(d.img.fwLen) <= |d.img.data|
    modifies d`lines, d`waits, d`samples, d`ops, d`countingTimer
    ensures RetryRun(results, FW_FLASH_RETRY) && (ok <==> Succeeded(results))
    ensures forall i :: 0 <= i < |results| ==> results[i] in {0, -EIO}
    ensures d.ops == old(d.ops) + Flatten(ts) && AllVerified(ts, results, d.img.data, d.img.fwLen)
  {
    ghost var img := d.img;
    var retries: int := FW_FLASH_RETRY;
    ok, results, ts := false, [], [];
    while !ok && retries >= 0
      invariant -1 <= retries <= FW_FLASH_RETRY && |results| == FW_FLASH_RETRY - retries
      invariant Attempts(results, ok)
      invariant forall i :: 0 <= i < |results| ==> results[i] in {0, -EIO}
      invariant d.img == img && d.ops == old(d.ops) + Flatten(ts) && AllVerified(ts, results, img.data, img.fwLen)
      decreases retries + 1
    {
      var ret, t := VerifyAttempt(d, garbage(FW_FLASH_RETRY - retries));
      AttemptsStep(results, ret);
      AllVerifiedSnoc(ts, results, t, ret, img.data, img.fwLen);
      Assoc(old(d.ops), Flatten(ts), t);
      FlattenSnoc(ts, t);
      results, ts := results + [ret], ts + [t];
      ok := ret >= 0;
      retries := retries - 1;
    }
    AttemptsDone(results, ok, FW_FLASH_RETRY);
  }

  /** One tc360_verify_fw, as the retry loop sees it: its result code and its trace. */
  method VerifyAttempt(d: Tc360, init: byte) returns (r: int, ghost t: seq<RegOp>)
    requires !d.fwImgNull && d.img.fwLen <= 0xFFE0 && RoundUp(d.img.fwLen) <= |d.img.data|
    modifies d`lines, d`waits, d`samples, d`ops, d`countingTimer
    ensures r == 0 || r == -EIO
    ensures d.ops == old(d.ops) + t && VerifyOutcome(t, r, d.img.data, d.img.fwLen)
    ensures r == 0 <==> ReadVals(t) == d.img.data[..RoundUp(d.img.fwLen)]
  {
    var ret, tv, _ := VerifyFw(d, init);
    r, t := ret, tv;
  }

  /** The results, the next SMBus answer and the register trace of a run of reads. */
  datatype Readings = Readings(values: seq<int>, next: nat, ops: seq<RegOp>)

  /**
   * The worker's read of the flashed version from SMBus answer `n`: a
   * tc360_get_fw_ver, repeated while it comes back negative and `retries`
   * remain; each read uses at least one answer.
   */
  function FlashedVersion(answers: nat -> int, n: nat, retries: nat): (run: Readings)
    decreases retries
    ensures RetryRun(run.values, retries)
    ensures run.next >= n + |run.values|
  {
    var res := VersionRead(answers, n, VERSION_RETRIES);
    var ops := VersionOps(answers, CMD_FW_VER, n, VERSION_RETRIES);
    if res.value >= 0 || retries == 0 then Readings([res.value], res.next, ops)
    else
      var rest := FlashedVersion(answers, res.next, retries - 1);
      Readings([res.value] + rest.values, rest.next, ops + rest.ops)
  }

  /**
   * Reading the flashed version, retried FW_VER_READ times over
   * tc360_get_fw_ver's own retries: the results, the SMBus answers used and
   * the trace are those of FlashedVersion.
   */
  method VersionRetried(d: Tc360) returns (ok: bool, ghost results: seq<int>)
    modifies d`smbusReads, d`ops
    ensures var run := FlashedVersion(d.smbus, old(d.smbusReads), FW_VER_READ);
      && results == run.values && d.smbusReads == run.next && d.ops == old(d.ops) + run.ops
    ensures RetryRun(results, FW_VER_READ) && (ok <==> Succeeded(results))
    ensures d.smbusReads >= old(d.smbusReads) + |results|
  {
    ghost var total := FlashedVersion(d.smbus, d.smbusReads, FW_VER_READ);
    ghost var done: seq<RegOp> := [];
    var retries: int := FW_VER_READ;
    ok, results := false, [];
    while !ok && retries >= 0
      invariant -1 <= retries <= FW_VER_READ && |results| == FW_VER_READ - retries
      invariant Attempts(results, ok) && d.ops == old(d.ops) + done
      invariant !ok && retries >= 0 ==>
                  var rest := FlashedVersion(d.smbus, d.smbusReads, retries);
                  total == Readings(results + rest.values, rest.next, done + rest.ops)
      invariant ok || retries < 0 ==> total == Readings(results, d.smbusReads, done)
      decreases retries + 1
    {
      ghost var start := d.ops;
      var fwVer := GetFwVer(d);
      ghost var chunk := d.ops[|start|..];
      assert d.ops == start + chunk;
      Assoc(old(d.ops), done, chunk);
      if fwVer < 0 && retries > 0 {
        ghost var rest' := FlashedVersion(d.smbus, d.smbusReads, retries - 1);
        Assoc(results, [fwVer], rest'.values);
        Assoc(done, chunk, rest'.ops);
      }
      AttemptsStep(results, fwVer);
      results, done := results + [fwVer], done + chunk;
      ok := fwVer >= 0;
      retries := retries - 1;
    }
  }

  // ---------------------------------------------------------------- image holding

  /**
   * What the worker and tc360_unload_fw give back for `path`: the
   * request_firmware blob for the built-in image, the kzalloc'ed buffer for
   * either SD card; nothing otherwise.
   */
  function Released(h: Holding, path: byte): (h': Holding)
    ensures !h'.firmware || !h'.buffer || path !in {FW_BUILT_IN, FW_IN_SDCARD, FW_EX_SDCARD}
    ensures path == FW_BUILT_IN ==> h' == h.(firmware := false)
    ensures path in {FW_IN_SDCARD, FW_EX_SDCARD} ==> h' == h.(buffer := false)
    ensures path !in {FW_BUILT_IN, FW_IN_SDCARD, FW_EX_SDCARD} ==> h' == h
  {
    if path == FW_BUILT_IN then h.(firmware := false)
    else if path == FW_IN_SDCARD || path == FW_EX_SDCARD then h.(buffer := false)
    else h
  }

  /**
   * What the outside world answers a load: request_firmware's result,
   * whether the SD-card file opened, whether its buffer was allocated,
   * and the image that was found.
   */
  datatype Fetch = Fetch(request: int, found: bool, buffered: bool, image: FwImage)

  /** tc360_load_fw's return value. */
  function LoadResult(path: byte, f: Fetch): (r: int)
    ensures r <= 0
    ensures path == FW_BUILT_IN ==> (r == 0 <==> f.request >= 0)
    ensures path == FW_IN_SDCARD ==> (r == 0 <==> f.found && f.buffered)
    ensures path > FW_EX_SDCARD ==> r == -ENOENT
  {
    match path
    case 0 => if f.request < 0 then f.request else 0
    case 1 => 0
    case 2 => if !f.found then -ENOENT else if !f.buffered then -ENOMEM else 0
    case 3 => 0
    case _ => -ENOENT
  }

  /** What is held after tc360_load_fw. */
  function LoadedHolding(h: Holding, path: byte, f: Fetch): (h': Holding)
    ensures path == FW_BUILT_IN ==> h' == h.(firmware := f.request == 0)
    ensures path == FW_IN_SDCARD ==> h' == (if f.found then h.(buffer := f.buffered) else h)
    ensures path !in {FW_BUILT_IN, FW_IN_SDCARD} ==> h' == h
  {
    if path == FW_BUILT_IN then h.(firmware := f.request == 0)
    else if path == FW_IN_SDCARD && f.found then h.(buffer := f.buffered)
    else h
  }

  /** Whether tc360_load_fw points the image at newly loaded bytes. */
  predicate LoadsImage(path: byte, f: Fetch)
  {
    (path == FW_BUILT_IN && f.request == 0) || (path == FW_IN_SDCARD && f.found && f.buffered)
  }

  /**
   * Whether fw_img is NULL after tc360_load_fw: an internal-SD load whose
   * file opened stores kzalloc's result, NULL when the allocation failed.
   */
  function ImgNullAfterLoad(wasNull: bool, path: byte, f: Fetch): bool
  {
    if LoadsImage(path, f) then false
    else if path == FW_IN_SDCARD && f.found then true
    else wasNull
  }

  /** tc360_load_fw. */
  method LoadFw(d: Tc360, path: byte, f: Fetch) returns (r: int)
    modifies d`holding, d`img, d`fwImgNull
    ensures r == LoadResult(path, f)
    ensures d.holding == LoadedHolding(old(d.holding), path, f)
    ensures d.img == (if LoadsImage(path, f) then f.image else old(d.img))
    ensures d.fwImgNull == ImgNullAfterLoad(old(d.fwImgNull), path, f)
  {
    var ret: int;
    if path == FW_BUILT_IN {
      ret := f.request;
      d.holding := d.holding.(firmware := ret == 0);
      if ret == 0 {
        d.img := f.image;
        d.fwImgNull := false;
      }
    } else if path == FW_HEADER {
      ret := 0;
    } else if path == FW_IN_SDCARD {
      if !f.found {
        ret := -ENOENT;
      } else if !f.buffered {
        d.holding := d.holding.(buffer := false);
        d.fwImgNull := true;
        ret := -ENOMEM;
      } else {
        d.holding := d.holding.(buffer := true);
        d.img := f.image;
        d.fwImgNull := false;
        ret := 0;
      }
    } else if path == FW_EX_SDCARD {
      ret := 0;
    } else {
      return -ENOENT;
    }
    if ret < 0 {
      return ret;
    }
    return 0;
  }

  /** tc360_unload_fw. */
  method UnloadFw(d: Tc360, path: byte) returns (r: int)
    modifies d`holding
    ensures r == (if path <= FW_EX_SDCARD then 0 else -ENOENT)
    ensures d.holding == Released(old(d.holding), path)
  {
    if path == FW_BUILT_IN {
      d.holding := d.holding.(firmware := false);
    } else if path == FW_HEADER {
    } else if path == FW_IN_SDCARD || path == FW_EX_SDCARD {
      d.holding := d.holding.(buffer := false);
    } else {
      return -ENOENT;
    }
    return 0;
  }

  /** Unloading gives back exactly what loading took, except for the external SD card. */
  lemma LoadUnload(h: Holding, path: byte, f: Fetch)
    requires !h.firmware && !h.buffer && path != FW_EX_SDCARD
    ensures Released(LoadedHolding(h, path, f), path) == h
  {
  }

  /** The external SD card loads nothing, yet its unload frees the image buffer. */
  lemma ExSdcardUnloadFrees(h: Holding, f: Fetch)
    requires h.buffer
    ensures LoadedHolding(h, FW_EX_SDCARD, f).buffer
    ensures !Released(LoadedHolding(h, FW_EX_SDCARD, f), FW_EX_SDCARD).buffer
  {
  }

  /**
   * A failed load leaves nothing newly held and no new image, and leaves
   * fw_img NULL exactly when it was already or the internal-SD buffer
   * allocation failed.
   */
  lemma LoadFailureHoldsNothing(h: Holding, wasNull: bool, path: byte, f: Fetch)
    requires !h.firmware && !h.buffer && LoadResult(path, f) < 0
    ensures LoadedHolding(h, path, f) == h && !LoadsImage(path, f)
    ensures ImgNullAfterLoad(wasNull, path, f) <==> wasNull || (path == FW_IN_SDCARD && LoadResult(path, f) == -ENOMEM)
  {
  }

  /** A load that succeeds points fw_img at an image unless the source loads nothing and none was loaded before. */
  lemma LoadSuccessImage(wasNull: bool, path: byte, f: Fetch)
    requires LoadResult(path, f) == 0
    ensures !ImgNullAfterLoad(wasNull, path, f) <==> LoadsImage(path, f) || !wasNull
  {
  }

  // ---------------------------------------------------------------- deciding to flash

  /** Whether tc360_flash_fw queues the worker or reports HAVE_LATEST_FW. */
  datatype Decision = Queue | Skip

  /**
   * tc360_flash_fw's choice: on a multi-PCB build a module version read
   * successfully and different from the supported one forbids the update;
   * otherwise an IC at or above the image's version is left alone unless
   * the update is forced. A failed version read compares below any image.
   */
  function Decide(fwVer: int, moduleVer: Option<int>, firstFwVer: u16, force: bool, supported: int): (dec: Decision)
    ensures dec == Skip <==>
              (moduleVer.Some? && moduleVer.value >= 0 && moduleVer.value != supported)
              || (fwVer >= firstFwVer && !force)
  {
    if moduleVer.Some? && moduleVer.value >= 0 && moduleVer.value != supported then Skip
    else if fwVer >= firstFwVer && !force then Skip
    else Queue
  }

  /** An IC whose version cannot be read is flashed unless its module forbids it. */
  lemma DecideFailedRead(fwVer: int, moduleVer: Option<int>, firstFwVer: u16, force: bool, supported: int)
    requires fwVer < 0 && (moduleVer.None? || moduleVer.value < 0 || moduleVer.value == supported)
    ensures Decide(fwVer, moduleVer, firstFwVer, force, supported) == Queue
  {
  }

  /** Forcing flashes every IC whose module allows it. */
  lemma DecideForce(fwVer: int, moduleVer: Option<int>, firstFwVer: u16, supported: int)
    requires moduleVer.None? || moduleVer.value < 0 || moduleVer.value == supported
    ensures Decide(fwVer, moduleVer, firstFwVer, true, supported) == Queue
  {
  }

  /** A newer IC is skipped whenever an older one is. */
  lemma DecideMonotone(v1: int, v2: int, moduleVer: Option<int>, firstFwVer: u16, force: bool, supported: int)
    requires v1 <= v2 && Decide(v1, moduleVer, firstFwVer, force, supported) == Skip
    ensures Decide(v2, moduleVer, firstFwVer, force, supported) == Skip
  {
  }

  /** A readable but unsupported module is never flashed, forced or not. */
  lemma DecideModuleGate(fwVer: int, m: int, firstFwVer: u16, force: bool, supported: int)
    requires m >= 0 && m != supported
    ensures Decide(fwVer, Some(m), firstFwVer, force, supported) == Skip
  {
  }

  /** The IC's firmware version, its module version on multi-PCB builds, the next SMBus answer and the register trace. */
  datatype Versions = Versions(fwVer: int, moduleVer: Option<int>, next: nat, ops: seq<RegOp>)

  /** tc360_flash_fw's version reads, starting at SMBus answer `n`. */
  function VersionsRead(answers: nat -> int, n: nat, multiPcb: bool): (vs: Versions)
    ensures vs.fwVer == VersionRead(answers, n, VERSION_RETRIES).value
    ensures vs.moduleVer.Some? == multiPcb
  {
    var fw := VersionRead(answers, n, VERSION_RETRIES);
    if multiPcb then
      var m := VersionRead(answers, fw.next, VERSION_RETRIES);
      Versions(fw.value, Some(m.value), m.next,
               VersionOps(answers, CMD_FW_VER, n, VERSION_RETRIES) + VersionOps(answers, CMD_MODULE_VER, fw.next, VERSION_RETRIES))
    else Versions(fw.value, None, fw.next, VersionOps(answers, CMD_FW_VER, n, VERSION_RETRIES))
  }

  /** The firmware version, then on multi-PCB builds the module version. */
  method ReadVersions(d: Tc360) returns (fwVer: int, moduleVer: Option<int>)
    modifies d`smbusReads, d`ops
    ensures var vs := VersionsRead(d.smbus, old(d.smbusReads), d.multiPcb);
      && fwVer == vs.fwVer && moduleVer == vs.moduleVer && d.smbusReads == vs.next && d.ops == old(d.ops) + vs.ops
    ensures var fw := VersionRead(d.smbus, old(d.smbusReads), VERSION_RETRIES);
      d.ops == old(d.ops) + VersionOps(d.smbus, CMD_FW_VER, old(d.smbusReads), VERSION_RETRIES)
                          + (if d.multiPcb then VersionOps(d.smbus, CMD_MODULE_VER, fw.next, VERSION_RETRIES) else [])
  {
    fwVer := GetFwVer(d);
    moduleVer := None;
    if d.multiPcb {
      var m := GetModuleVer(d);
      moduleVer := Some(m);
    }
  }

  /**
   * The `out:` path of tc360_flash_fw: a factory download in progress is
   * marked passed and input re-enabled, otherwise the state becomes
   * STATE_NORMAL; then the image is unloaded.
   */
  method KeepFirmware(d: Tc360, path: byte)
    modifies d`holding, d`fwUpdateSkip, d`irqEnabled, d`enabled, d`facStatus, d`fwFlashState
    ensures d.holding == Released(old(d.holding), path)
    ensures d.fwUpdateSkip == (d.facTk || old(d.fwUpdateSkip))
    ensures d.facTk && old(d.facStatus) == Downloading ==>
              d.irqEnabled && d.enabled && d.facStatus == Passed && d.fwFlashState == old(d.fwFlashState)
    ensures !(d.facTk && old(d.facStatus) == Downloading) ==>
              d.irqEnabled == old(d.irqEnabled) && d.enabled == old(d.enabled) && d.facStatus == old(d.facStatus)
    ensures d.facTk && old(d.facStatus) != Downloading ==> d.fwFlashState == Normal
    ensures !d.facTk ==> d.fwFlashState == old(d.fwFlashState)
  {
    if d.facTk {
      d.fwUpdateSkip := true;
      if d.facStatus == Downloading {
        d.irqEnabled := true;
        d.enabled := true;
        d.facStatus := Passed;
      } else {
        d.fwFlashState := Normal;
      }
    }
    var _ := UnloadFw(d, path);
  }

  /**
   * tc360_flash_fw: load the image, read the IC's versions, then either
   * queue the worker and report FW_UPDATE_RUNNING, or keep the firmware
   * the IC has and report HAVE_LATEST_FW. A failed load is reported and
   * changes nothing but what the load itself held.
   */
  method FlashFw(d: Tc360, path: byte, force: bool, f: Fetch) returns (r: int, dec: Decision)
    requires LoadResult(path, f) == 0 ==> !ImgNullAfterLoad(d.fwImgNull, path, f)
    modifies d`holding, d`img, d`fwImgNull, d`curFwPath, d`smbusReads, d`ops, d`fwUpdateSkip, d`workQueued
    modifies d`irqEnabled, d`enabled, d`facStatus, d`fwFlashState
    ensures d.fwImgNull == ImgNullAfterLoad(old(d.fwImgNull), path, f)
    ensures LoadResult(path, f) < 0 ==>
              && r == LoadResult(path, f) && d.holding == LoadedHolding(old(d.holding), path, f)
              && d.img == old(d.img) && d.curFwPath == old(d.curFwPath) && d.smbusReads == old(d.smbusReads)
              && d.workQueued == old(d.workQueued) && d.fwUpdateSkip == old(d.fwUpdateSkip)
              && d.fwFlashState == old(d.fwFlashState) && d.facStatus == old(d.facStatus)
              && d.irqEnabled == old(d.irqEnabled) && d.enabled == old(d.enabled) && d.ops == old(d.ops)
    ensures LoadResult(path, f) == 0 ==>
              var vs := VersionsRead(d.smbus, old(d.smbusReads), d.multiPcb);
              && d.curFwPath == path && d.img == (if LoadsImage(path, f) then f.image else old(d.img))
              && d.smbusReads == vs.next && d.ops == old(d.ops) + vs.ops
              && dec == Decide(vs.fwVer, vs.moduleVer, d.img.firstFwVer, force, d.supportModuleVer)
              && r == (if dec == Queue then FW_UPDATE_RUNNING else HAVE_LATEST_FW)
    ensures r == FW_UPDATE_RUNNING ==>
              && d.workQueued && d.holding == LoadedHolding(old(d.holding), path, f)
              && d.fwUpdateSkip == (!d.facTk && old(d.fwUpdateSkip))
              && d.fwFlashState == old(d.fwFlashState) && d.facStatus == old(d.facStatus)
              && d.irqEnabled == old(d.irqEnabled) && d.enabled == old(d.enabled)
    ensures r == HAVE_LATEST_FW ==>
              && d.workQueued == old(d.workQueued)
              && d.holding == Released(LoadedHolding(old(d.holding), path, f), path)
              && d.fwUpdateSkip == (d.facTk || old(d.fwUpdateSkip))
              && (d.facTk && old(d.facStatus) == Downloading ==>
                    d.irqEnabled && d.enabled && d.facStatus == Passed && d.fwFlashState == old(d.fwFlashState))
              && (d.facTk && old(d.facStatus) != Downloading ==>
                    && d.fwFlashState == Normal && d.facStatus == old(d.facStatus)
                    && d.irqEnabled == old(d.irqEnabled) && d.enabled == old(d.enabled))
              && (!d.facTk ==>
                    && d.fwFlashState == old(d.fwFlashState) && d.facStatus == old(d.facStatus)
                    && d.irqEnabled == old(d.irqEnabled) && d.enabled == old(d.enabled))
  {
    var ret := LoadFw(d, path, f);
    if ret < 0 {
      return ret, Skip;
    }
    d.curFwPath := path;
    var fwVer, moduleVer := ReadVersions(d);
    dec := Decide(fwVer, moduleVer, d.img.firstFwVer, force, d.supportModuleVer);
    r := ActOn(d, path, dec);
  }

  /**
   * The end of tc360_flash_fw once it has decided: queue the worker and
   * report FW_UPDATE_RUNNING, or keep the IC's firmware as the `out:` path
   * does and report HAVE_LATEST_FW.
   */
  method ActOn(d: Tc360, path: byte, dec: Decision) returns (r: int)
    modifies d`holding, d`fwUpdateSkip, d`workQueued, d`irqEnabled, d`enabled, d`facStatus, d`fwFlashState
    ensures r == (if dec == Queue then FW_UPDATE_RUNNING else HAVE_LATEST_FW)
    ensures dec == Queue ==>
              && d.workQueued && d.holding == old(d.holding)
              && d.fwUpdateSkip == (!d.facTk && old(d.fwUpdateSkip))
              && d.fwFlashState == old(d.fwFlashState) && d.facStatus == old(d.facStatus)
              && d.irqEnabled == old(d.irqEnabled) && d.enabled == old(d.enabled)
    ensures dec == Skip ==>
              && d.workQueued == old(d.workQueued)
              && d.holding == Released(old(d.holding), path)
              && d.fwUpdateSkip == (d.facTk || old(d.fwUpdateSkip))
              && (d.facTk && old(d.facStatus) == Downloading ==>
                    d.irqEnabled && d.enabled && d.facStatus == Passed && d.fwFlashState == old(d.fwFlashState))
              && (d.facTk && old(d.facStatus) != Downloading ==>
                    && d.fwFlashState == Normal && d.facStatus == old(d.facStatus)
                    && d.irqEnabled == old(d.irqEnabled) && d.enabled == old(d.enabled))
              && (!d.facTk ==>
                    && d.fwFlashState == old(d.fwFlashState) && d.facStatus == old(d.facStatus)
                    && d.irqEnabled == old(d.irqEnabled) && d.enabled == old(d.enabled))
  {
    if dec == Queue {
      if d.facTk {
        d.fwUpdateSkip := false;
      }
      d.workQueued := true;
      return FW_UPDATE_RUNNING;
    }
    KeepFirmware(d, path);
    r := HAVE_LATEST_FW;
  }

  // ---------------------------------------------------------------- the worker

  /**
   * The attempts of the worker's four phases: erase, write, verify and the
   * version read run in that order, each under its retry budget, and a
   * phase runs only when the one before it succeeded.
   */
  ghost predicate PhaseRuns(erases: seq<int>, writes: seq<int>, verifies: seq<int>, versions: seq<int>)
  {
    && RetryRun(erases, FW_FLASH_RETRY)
    && (writes != [] <==> Succeeded(erases))
    && (writes != [] ==> RetryRun(writes, FW_FLASH_RETRY))
    && (verifies != [] <==> Succeeded(writes))
    && (verifies != [] ==> RetryRun(verifies, FW_FLASH_RETRY))
    && (versions != [] <==> Succeeded(verifies))
    && (versions != [] ==> RetryRun(versions, FW_VER_READ))
  }

  /** The worker's last phase: cycle the power, then read the flashed version under its retries. */
  method CheckFlashed(d: Tc360) returns (ok: bool, ghost versions: seq<int>, ghost tail: seq<RegOp>)
    modifies d`smbusReads, d`ops
    ensures RetryRun(versions, FW_VER_READ) && (ok <==> Succeeded(versions))
    ensures var run := FlashedVersion(d.smbus, old(d.smbusReads), FW_VER_READ);
      && versions == run.values && d.smbusReads == run.next
      && tail == [PowerCycle] + run.ops && d.ops == old(d.ops) + tail
  {
    d.CyclePower();
    ok, versions := VersionRetried(d);
    ghost var run := FlashedVersion(d.smbus, old(d.smbusReads), FW_VER_READ);
    tail := [PowerCycle] + run.ops;
    Assoc(old(d.ops), [PowerCycle], run.ops);
  }

  /**
   * What the phases after the erase left in the register trace, given the
   * attempts' results: the write programs the whole rounded image, every
   * verify attempt's result is what its own trace makes it, and the
   * version read, when it ran, is FlashedVersion from SMBus answer `n0` to
   * `n1` after a power cycle.
   */
  ghost predicate LaterTraces(answers: nat -> int, n0: nat, n1: nat, img: FwImage,
                              writes: seq<int>, verifies: seq<int>, versions: seq<int>,
                              wt: seq<RegOp>, vts: seq<seq<RegOp>>, tail: seq<RegOp>)
    requires img.fwLen <= 0xFFE0 && RoundUp(img.fwLen) <= |img.data|
  {
    && (writes == [] ==> wt == [])
    && (writes != [] ==> Cmds(wt) == WriteHead() + ProgramCmds(img.data, RoundUp(img.fwLen)))
    && AllVerified(vts, verifies, img.data, img.fwLen)
    && (versions == [] ==> tail == [] && n1 == n0)
    && (versions != [] ==>
          var run := FlashedVersion(answers, n0, FW_VER_READ);
          versions == run.values && n1 == run.next && tail == [PowerCycle] + run.ops)
  }

  /** What each phase of the worker left in the register trace: the erase attempts', then the later phases'. */
  ghost predicate PhaseTraces(answers: nat -> int, n0: nat, n1: nat, img: FwImage,
                              erases: seq<int>, writes: seq<int>, verifies: seq<int>, versions: seq<int>,
                              ets: seq<seq<RegOp>>, wt: seq<RegOp>, vts: seq<seq<RegOp>>, tail: seq<RegOp>)
    requires img.fwLen <= 0xFFE0 && RoundUp(img.fwLen) <= |img.data|
  {
    AllErased(ets, erases) && LaterTraces(answers, n0, n1, img, writes, verifies, versions, wt, vts, tail)
  }

  /** The worker's write, then its verify under the retry budget. */
  method WriteAndVerify(d: Tc360, garbage: nat -> byte)
    returns (ok: bool, ghost writes: seq<int>, ghost verifies: seq<int>, ghost wt: seq<RegOp>, ghost vts: seq<seq<RegOp>>)
    requires !d.fwImgNull && d.img.fwLen <= 0xFFE0 && RoundUp(d.img.fwLen) <= |d.img.data|
    modifies d`lines, d`waits, d`samples, d`ops, d`countingTimer
    ensures writes == [0] && RetryRun(verifies, FW_FLASH_RETRY) && (ok <==> Succeeded(verifies))
    ensures d.ops == old(d.ops) + (wt + Flatten(vts))
    ensures Cmds(wt) == WriteHead() + ProgramCmds(d.img.data, RoundUp(d.img.fwLen))
    ensures AllVerified(vts, verifies, d.img.data, d.img.fwLen)
  {
    var written;
    written, writes, wt := WriteRetried(d);
    ok, verifies, vts := VerifyRetried(d, garbage);
    Assoc(old(d.ops), wt, Flatten(vts));
  }

  /**
   * The worker's phases after a successful erase: the write, the verify
   * attempts and, when they succeeded, the power cycle and version read.
   */
  method AfterErase(d: Tc360, garbage: nat -> byte)
    returns (ok: bool, ghost writes: seq<int>, ghost verifies: seq<int>, ghost versions: seq<int>,
             ghost wt: seq<RegOp>, ghost vts: seq<seq<RegOp>>, ghost tail: seq<RegOp>)
    requires !d.fwImgNull && d.img.fwLen <= 0xFFE0 && RoundUp(d.img.fwLen) <= |d.img.data|
    modifies d`lines, d`waits, d`samples, d`ops, d`countingTimer, d`smbusReads
    ensures writes == [0] && RetryRun(verifies, FW_FLASH_RETRY)
    ensures (versions != [] <==> Succeeded(verifies)) && (versions != [] ==> RetryRun(versions, FW_VER_READ))
    ensures ok <==> Succeeded(versions)
    ensures d.ops == old(d.ops) + ((wt + Flatten(vts)) + tail)
    ensures LaterTraces(d.smbus, old(d.smbusReads), d.smbusReads, d.img, writes, verifies, versions, wt, vts, tail)
  {
    versions, tail := [], [];
    ok, writes, verifies, wt, vts := WriteAndVerify(d, garbage);
    if ok {
      ok, versions, tail := CheckFlashed(d);
      Assoc(old(d.ops), wt + Flatten(vts), tail);
    }
  }

  /**
   * The phases of tc360_fw_update_worker up to its success or `goto err`;
   * the write is never retried. The register trace is the phases' traces
   * one after another, each tied to its attempts as PhaseTraces says.
   */
  method RunPhases(d: Tc360, garbage: nat -> byte)
    returns (ok: bool, ghost erases: seq<int>, ghost writes: seq<int>, ghost verifies: seq<int>, ghost versions: seq<int>,
             ghost ets: seq<seq<RegOp>>, ghost wt: seq<RegOp>, ghost vts: seq<seq<RegOp>>, ghost tail: seq<RegOp>)
    requires !d.fwImgNull && d.img.fwLen <= 0xFFE0 && RoundUp(d.img.fwLen) <= |d.img.data|
    modifies d`lines, d`waits, d`samples, d`ops, d`countingTimer, d`smbusReads
    ensures PhaseRuns(erases, writes, verifies, versions) && (ok <==> Succeeded(versions))
    ensures writes == [] || writes == [0]
    ensures d.ops == old(d.ops) + (Flatten(ets) + ((wt + Flatten(vts)) + tail))
    ensures PhaseTraces(d.smbus, old(d.smbusReads), d.smbusReads, d.img,
                        erases, writes, verifies, versions, ets, wt, vts, tail)
  {
    writes, verifies, versions := [], [], [];
    wt, vts, tail := [], [], [];
    ok, erases, ets := EraseRetried(d);
    if ok {
      ok, writes, verifies, versions, wt, vts, tail := AfterErase(d, garbage);
      Assoc(old(d.ops), Flatten(ets), (wt + Flatten(vts)) + tail);
    }
  }

  /**
   * The worker's ending: the image is released and the wake lock dropped;
   * on success the state is STATE_FLASH and input is re-enabled, on
   * failure a factory download is marked failed, and otherwise the state
   * is STATE_FLASH_FAIL and the input device is torn down.
   */
  method Finish(d: Tc360, ok: bool)
    modifies d`holding, d`fwFlashState, d`irqEnabled, d`enabled, d`wakeLock, d`facStatus, d`removed
    ensures d.holding == Released(old(d.holding), d.curFwPath) && !d.wakeLock
    ensures ok ==>
              && d.fwFlashState == Flash && d.irqEnabled && d.enabled && d.removed == old(d.removed)
              && d.facStatus == (if d.facTk && old(d.facStatus) == Downloading then Passed else old(d.facStatus))
    ensures !ok && d.facTk && old(d.facStatus) == Downloading ==>
              && d.facStatus == Failed && d.fwFlashState == old(d.fwFlashState) && d.removed == old(d.removed)
              && d.irqEnabled == old(d.irqEnabled) && d.enabled == old(d.enabled)
    ensures !ok && !(d.facTk && old(d.facStatus) == Downloading) ==>
              && d.fwFlashState == FlashFail && d.removed && d.facStatus == old(d.facStatus)
              && d.irqEnabled == old(d.irqEnabled) && d.enabled == old(d.enabled)
  {
    d.holding := Released(d.holding, d.curFwPath);
    d.wakeLock := false;
    if ok {
      d.fwFlashState := Flash;
      d.irqEnabled := true;
      d.enabled := true;
      if d.facTk && d.facStatus == Downloading {
        d.facStatus := Passed;
      }
      return;
    }
    if d.facTk && d.facStatus == Downloading {
      d.facStatus := Failed;
      return;
    }
    d.fwFlashState := FlashFail;
    d.removed := true;
  }

  /**
   * tc360_fw_update_worker: hold the wake lock, run the phases, settle the
   * state; the register trace is the phases' traces, as RunPhases states.
   */
  method FwUpdateWorker(d: Tc360, garbage: nat -> byte)
    returns (ghost erases: seq<int>, ghost writes: seq<int>, ghost verifies: seq<int>, ghost versions: seq<int>,
             ghost ets: seq<seq<RegOp>>, ghost wt: seq<RegOp>, ghost vts: seq<seq<RegOp>>, ghost tail: seq<RegOp>)
    requires !d.fwImgNull && d.img.fwLen <= 0xFFE0 && RoundUp(d.img.fwLen) <= |d.img.data|
    modifies d`lines, d`waits, d`samples, d`ops, d`countingTimer, d`smbusReads
    modifies d`holding, d`fwFlashState, d`irqEnabled, d`enabled, d`wakeLock, d`facStatus, d`removed
    ensures PhaseRuns(erases, writes, verifies, versions) && (writes == [] || writes == [0])
    ensures d.ops == old(d.ops) + (Flatten(ets) + ((wt + Flatten(vts)) + tail))
    ensures PhaseTraces(d.smbus, old(d.smbusReads), d.smbusReads, d.img,
                        erases, writes, verifies, versions, ets, wt, vts, tail)
    ensures d.holding == Released(old(d.holding), d.curFwPath) && !d.wakeLock
    ensures Succeeded(versions) ==>
              && d.fwFlashState == Flash && d.irqEnabled && d.enabled && d.removed == old(d.removed)
              && d.facStatus == (if d.facTk && old(d.facStatus) == Downloading then Passed else old(d.facStatus))
    ensures !Succeeded(versions) && d.facTk && old(d.facStatus) == Downloading ==>
              && d.facStatus == Failed && d.fwFlashState == old(d.fwFlashState) && d.removed == old(d.removed)
              && d.irqEnabled == old(d.irqEnabled) && d.enabled == old(d.enabled)
    ensures !Succeeded(versions) && !(d.facTk && old(d.facStatus) == Downloading) ==>
              && d.fwFlashState == FlashFail && d.removed && d.facStatus == old(d.facStatus)
              && d.irqEnabled == old(d.irqEnabled) && d.enabled == old(d.enabled)
  {
    d.wakeLock := true;
    var ok;
    ok, erases, writes, verifies, versions, ets, wt, vts, tail := RunPhases(d, garbage);
    ghost var img, n1 := d.img, d.smbusReads;
    Finish(d, ok);
    assert d.img == img && d.smbusReads == n1;
  }

  /**
   * The worker fails only after spending a whole retry budget: all six
   * erases, all six verifies, or all six version reads came back negative.
   */
  lemma {:induction false} WorkerFailure(erases: seq<int>, writes: seq<int>, verifies: seq<int>, versions: seq<int>)
    requires PhaseRuns(erases, writes, verifies, versions) && (writes == [] || writes == [0])
    requires !Succeeded(versions)
    ensures || (|erases| == FW_FLASH_RETRY + 1 && forall i :: 0 <= i < |erases| ==> erases[i] < 0)
            || (|verifies| == FW_FLASH_RETRY + 1 && forall i :: 0 <= i < |verifies| ==> verifies[i] < 0)
            || (|versions| == FW_VER_READ + 1 && forall i :: 0 <= i < |versions| ==> versions[i] < 0)
  {
    if !Succeeded(erases) {
      RetryRunOutcome(erases, FW_FLASH_RETRY);
    } else if !Succeeded(verifies) {
      RetryRunOutcome(verifies, FW_FLASH_RETRY);
    } else {
      RetryRunOutcome(versions, FW_VER_READ);
    }
  }
}
