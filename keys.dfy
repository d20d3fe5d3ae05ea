/**
 * The driver's two small pieces outside flashing: decoding the key byte
 * the IC reports on an interrupt, and the guards of suspend and resume,
 * which leave the device alone while firmware is being flashed or after
 * a failed flash removed the driver.
 */
module Keys {
  import opened Bits
  import opened Ops
  import opened Device

  /** The SMBus register holding the key state. */
  const KEY_DATA: byte := 0x00

  /** What an interrupt's key byte reports. */
  datatype KeyEvent =
    | NoButton                       // index 0: an interrupt without a key
    | Key(slot: nat, press: bool)    // keycodes[slot] went down (press) or up
    | Wrong                          // index 3: no such key

  /** key_val & TC360_KEY_INDEX_MASK (0x03): bits 0..1, the key's 1-based index. */
  function KeyIndex(v: byte): nat
  {
    v % 4
  }

  /** !(key_val & TC360_KEY_PRESS_MASK) (0x08): bit 3 clear means pressed. */
  predicate Pressed(v: byte)
  {
    (v / 8) % 2 == 0
  }

  /** The switch on the key index in tc360_interrupt. */
  function Decode(v: byte): (e: KeyEvent)
    ensures e.Key? ==> e.slot < 2
    ensures e == NoButton <==> KeyIndex(v) == 0
    ensures e == Wrong <==> KeyIndex(v) == 3
  {
    var index := KeyIndex(v);
    if index == 0 then NoButton
    else if index <= 2 then Key(index - 1, Pressed(v))
    else Wrong
  }

  /** The key byte the IC sends for a key event: index in bits 0..1, bit 3 for a release. */
  function Encode(slot: nat, press: bool): (v: byte)
    requires slot < 2
    ensures 1 <= KeyIndex(v) <= 2
  {
    slot + 1 + (if press then 0 else 8)
  }

  /** The bits tc360_interrupt looks at, key_val & 0x0B: bits 0, 1 and 3. */
  function Significant(v: byte): byte
  {
    v % 4 + (if Pressed(v) then 0 else 8)
  }

  /** Decoding an encoded key event gives it back. */
  lemma DecodeEncode(slot: nat, press: bool)
    requires slot < 2
    ensures Decode(Encode(slot, press)) == Key(slot, press)
  {
  }

  /** Only bits 0, 1 and 3 matter, and a decoded key encodes back to exactly those bits. */
  lemma DecodeSignificant(v: byte)
    ensures Decode(v) == Decode(Significant(v))
    ensures Decode(v).Key? ==> Encode(Decode(v).slot, Decode(v).press) == Significant(v)
  {
  }

  /**
   * tc360_interrupt: nothing while touchkey_enable is clear; otherwise
   * read the key byte over SMBus and, unless the read failed, report
   * what it decodes to.
   */
  method Interrupt(d: Tc360) returns (ev: Option<KeyEvent>)
    modifies d`smbusReads, d`ops
    ensures !d.touchkeyEnable ==> ev == None && d.smbusReads == old(d.smbusReads) && d.ops == old(d.ops)
    ensures d.touchkeyEnable ==>
              var ret := d.smbus(old(d.smbusReads));
              && d.smbusReads == old(d.smbusReads) + 1
              && d.ops == old(d.ops) + [SmbusRead(KEY_DATA, ret)]
              && ev == (if ret < 0 then None else Some(Decode(ret % 0x100)))
  {
    if !d.touchkeyEnable {
      return None;
    }
    var ret := d.SmbusReadByte(KEY_DATA);
    if ret < 0 {
      return None;
    }
    var keyVal: byte := ret % 0x100;
    ev := Some(Decode(keyVal));
  }

  // ---------------------------------------------------------------- suspend and resume

  /** How suspend or resume treats the device. */
  datatype Guard =
    | Updating      // fw_wake_lock is held: the IC keeps its power state
    | Removed       // a failed flash removed the driver
    | AlreadyDone   // already disabled (suspend) or enabled (resume)
    | Proceed

  /** The checks at the head of tc360_suspend, in their order. */
  function SuspendGuard(wakeLock: bool, state: FlashState, enabled: bool): (g: Guard)
    ensures g == Proceed <==> !wakeLock && state != FlashFail && enabled
  {
    if wakeLock then Updating
    else if state == FlashFail then Removed
    else if !enabled then AlreadyDone
    else Proceed
  }

  /** The checks at the head of tc360_resume, in their order. */
  function ResumeGuard(wakeLock: bool, state: FlashState, enabled: bool): (g: Guard)
    ensures g == Proceed <==> !wakeLock && state != FlashFail && !enabled
  {
    if wakeLock then Updating
    else if state == FlashFail then Removed
    else if enabled then AlreadyDone
    else Proceed
  }

  /**
   * tc360_suspend: when allowed, disable input and the interrupt; after a
   * failed flash, destroy the firmware workqueue. It always returns 0.
   */
  method Suspend(d: Tc360) returns (r: int)
    modifies d`enabled, d`irqEnabled, d`fwWq
    ensures r == 0
    ensures var g := SuspendGuard(d.wakeLock, d.fwFlashState, old(d.enabled));
      && (g == Proceed ==> !d.enabled && !d.irqEnabled && d.fwWq == old(d.fwWq))
      && (g == Removed ==> !d.fwWq && d.enabled == old(d.enabled) && d.irqEnabled == old(d.irqEnabled))
      && (g in {Updating, AlreadyDone} ==>
            d.enabled == old(d.enabled) && d.irqEnabled == old(d.irqEnabled) && d.fwWq == old(d.fwWq))
  {
    if d.wakeLock {
      return 0;
    }
    if d.fwFlashState == FlashFail {
      if d.fwWq {
        d.fwWq := false;
      }
      return 0;
    }
    if !d.enabled {
      return 0;
    }
    d.enabled := false;
    d.irqEnabled := false;
    r := 0;
  }

  /** tc360_resume: when allowed, enable the interrupt and input. It always returns 0. */
  method Resume(d: Tc360) returns (r: int)
    modifies d`enabled, d`irqEnabled
    ensures r == 0
    ensures var g := ResumeGuard(d.wakeLock, d.fwFlashState, old(d.enabled));
      && (g == Proceed ==> d.enabled && d.irqEnabled)
      && (g != Proceed ==> d.enabled == old(d.enabled) && d.irqEnabled == old(d.irqEnabled))
  {
    if d.wakeLock {
      return 0;
    }
    if d.fwFlashState == FlashFail {
      return 0;
    }
    if d.enabled {
      return 0;
    }
    d.irqEnabled := true;
    d.enabled := true;
    r := 0;
  }

  /**
   * Suspend and resume are each other's undoing: a suspend that proceeds
   * lets the next resume proceed, and the other way round.
   */
  lemma SuspendResume(wakeLock: bool, state: FlashState)
    ensures SuspendGuard(wakeLock, state, true) == Proceed <==> ResumeGuard(wakeLock, state, false) == Proceed
    ensures SuspendGuard(wakeLock, state, true) == Proceed ==> SuspendGuard(wakeLock, state, false) == AlreadyDone
    ensures ResumeGuard(wakeLock, state, false) == Proceed ==> ResumeGuard(wakeLock, state, true) == AlreadyDone
  {
  }

  /** While firmware is being flashed, or after a failed flash, neither touches input. */
  lemma GuardsAgree(wakeLock: bool, state: FlashState, enabled: bool)
    requires wakeLock || state == FlashFail
    ensures SuspendGuard(wakeLock, state, enabled) == ResumeGuard(wakeLock, state, enabled)
    ensures SuspendGuard(wakeLock, state, enabled) != Proceed
  {
  }
}
