/** The stateful firmware module fw/lms_sec_state.c, statement by statement, proved against SecState. */
module SecDevice {
  import opened Words
  import opened SecState

  class Device {
    var slots: seq<Slot>
    var slotValid: seq<bool>
    var active: nat
    var state: nat
    var ctr: nat
    var lastTx: nat
    var factoryLocked: bool
    var keyLoaded: bool
    var keygenPending: bool
    var wrapped: KeyId
    var keyIndex: nat
    const fused: bool
    // hardware key slots behind MMIO
    var kState: KeyId
    var hwSeed: KeyId

    /** All variables as one value. */
    function Snapshot(): Sec
      reads this
    {
      Sec(slots, slotValid, active, state, ctr, lastTx, factoryLocked, keyLoaded, keygenPending,
          wrapped, keyIndex, fused, kState, hwSeed)
    }

    ghost predicate Valid()
      reads this
    {
      Shape(Snapshot())
    }

    /** sec_init on a blank device. */
    constructor (fused: bool)
      ensures Valid() && Snapshot() == PowerOn(Snapshot()).(slotValid := [false, false])
      ensures slots == [BlankSlot(), BlankSlot()] && this.fused == fused
    {
      slots, slotValid := [BlankSlot(), BlankSlot()], [false, false];
      active, state, ctr, lastTx := 0, BOOTING, 0, 0;
      factoryLocked, keyLoaded, keygenPending := false, false, false;
      wrapped, keyIndex, kState, hwSeed := NO_KEY, 0, NO_KEY, NO_KEY;
      this.fused := fused;
    }

    /** The slot write, byte by byte: `wrote` is false when power was lost before the last byte. */
    method WriteSlot(id: nat, record: Slot, hw: CommitHw) returns (wrote: bool)
      requires Valid() && id < 2 && SlotShape(record) && HwShape(hw)
      modifies this`slots
      ensures Valid()
      ensures wrote == !hw.CutWriting?
      ensures slots == old(slots)[id := match hw
                                        case CutWriting(_, k) => TornSlot(old(slots)[id], record, k)
                                        case ReadBackFails(_) => record.(tag := Garbled)
                                        case _ => record]
    {
      match hw {
        case CutWriting(_, k) =>
          slots := slots[id := TornSlot(slots[id], record, k)];
          return false;
        case ReadBackFails(_) =>
          slots := slots[id := record.(tag := Garbled)];
        case _ =>
          slots := slots[id := record];
      }
      return true;
    }

    /** commit_finish */
    method CommitFinish(inactive: nat, newState: nat, newCtr: nat, tx: nat, tag: Tag, hw: CommitHw) returns (rc: CommitRc)
      requires Valid() && inactive == 1 - active && newCtr < WORD && HwShape(hw)
      requires tag == Record(kState, inactive, newState, newCtr, tx).tag
      requires hw in {Works(tx), ReadBackFails(tx)} || (hw.CutWriting? && hw.tx == tx)
      modifies this
      ensures Valid()
      ensures (Snapshot(), rc) == Commit(old(Snapshot()), newState, newCtr, hw)
    {
      hide EncodeBody, TornSlot, BlankSlot;
      if tx <= lastTx {
        return Refused;
      }
      var wrote := WriteSlot(inactive, Slot(EncodeBody(newState, newCtr, tx), tag), hw);
      if !wrote {
        return PowerLost;
      }
      if slots[inactive].tag != tag {
        slotValid := slotValid[inactive := false];
        return Refused;
      }
      slotValid := slotValid[inactive := true];
      active := inactive;
      lastTx := tx;
      state := newState;
      ctr := newCtr;
      return Committed;
    }

    /** state_commit: fused hardware transaction, or counter step and HMAC one after the other. */
    method StateCommit(newState: nat, newCtr: nat, hw: CommitHw) returns (rc: CommitRc)
      requires Valid() && newCtr < WORD && HwShape(hw)
      modifies this
      ensures Valid()
      ensures (Snapshot(), rc) == Commit(old(Snapshot()), newState, newCtr, hw)
    {
      var inactive := 1 - active;
      if hw.Cut? {
        return PowerLost;
      }
      if fused {
        if hw.StepFails? || hw.TagFails? {
          return Refused;
        }
        var tag := Mac(kState, EncodeBody(newState, newCtr, hw.tx) + [inactive]);
        rc := CommitFinish(inactive, newState, newCtr, hw.tx, tag, hw);
        return;
      }
      if hw.StepFails? {
        return Refused;
      }
      var tx := hw.tx;
      if tx <= lastTx {
        return Refused;
      }
      var body := EncodeBody(newState, newCtr, tx);
      if hw.TagFails? {
        slotValid := slotValid[inactive := false];
        return Refused;
      }
      var tag := Mac(kState, body + [inactive]);
      rc := CommitFinish(inactive, newState, newCtr, tx, tag, hw);
    }

    /** sec_sign */
    method SecSign(maxCtr: nat, hw: SignHw) returns (rc: SignRc)
      requires Valid() && maxCtr < WORD
      requires HwShape(hw.reserve) && HwShape(hw.reserveBurn) && HwShape(hw.commit) && HwShape(hw.burn)
      modifies this
      ensures Valid()
      ensures (Snapshot(), rc) == Sign(old(Snapshot()), maxCtr, hw)
    {
      hide Commit;
      if state == ERROR_LOCKED {
        return Locked;
      }
      if state != IDLE {
        return Busy;
      }
      if !keyLoaded {
        return Locked;
      }
      if maxCtr == 0 || ctr >= maxCtr {
        state := EXHAUSTED;
        return Exhausted;
      }
      var q := ctr;
      var c := StateCommit(RESERVED, q, hw.reserve);
      if c == PowerLost {
        return SignCut;
      }
      if c != Committed {
        c := StateCommit(IDLE, q + 1, hw.reserveBurn);
        return OrCut(c, CommitError);
      }
      if hw.cutSigning {
        return SignCut;
      }
      var signed := hw.signs && hwSeed != NO_KEY;
      if signed {
        c := StateCommit(IDLE, q + 1, hw.commit);
        if c == Committed {
          return Released(q);
        }
        if c == PowerLost {
          return SignCut;
        }
      }
      c := StateCommit(IDLE, q + 1, hw.burn);
      return OrCut(c, if signed then CommitError else PathError);
    }

    /** The COMMIT branch of sec_handle_uart_cmd. */
    method HandleCommit(param: nat, newCtr: nat, hw: CommitHw) returns (rc: UartRc)
      requires Valid() && newCtr < WORD && HwShape(hw)
      modifies this
      ensures Valid()
      ensures (Snapshot(), rc) == SecState.UartCommit(old(Snapshot()), param, newCtr, hw)
    {
      hide Commit;
      if state == ERROR_LOCKED {
        return UartLocked;
      }
      if state == BOOTING {
        return UartBusy;
      }
      var newState := param % 0x1_0000;
      if newCtr < ctr || !UartAllowed(Snapshot(), newState, newCtr) {
        return UartRefused;
      }
      var c := StateCommit(newState, newCtr, hw);
      return match c case Committed => UartOk case Refused => UartRefused case PowerLost => UartCut;
    }

    /** rec_valid */
    method RecValid(id: nat, hmacWorks: bool) returns (valid: bool)
      requires Valid() && id < 2
      ensures valid == (hmacWorks && Validates(slots[id], id, kState))
    {
      if MagicOf(slots[id].body) != MAGIC {
        return false;
      }
      if !hmacWorks {
        return false;
      }
      var tag := Mac(kState, slots[id].body + [id]);
      return tag == slots[id].tag;
    }

    /** The first half of sec_boot: derive and load the keys, unwrap the seed. */
    method LoadKeys(key: KeyId, hw: BootHw) returns (ready: bool)
      requires Valid()
      modifies this
      ensures Valid()
      ensures (Snapshot(), ready) == BootKeys(old(Snapshot()), key, hw)
    {
      state := BOOTING;
      if !hw.loads {
        if hw.kStateLoaded {
          kState := key;
        }
        state := ERROR_LOCKED;
        return false;
      }
      kState := key;
      keyLoaded := true;
      if wrapped != NO_KEY {
        factoryLocked := true;
        if !(hw.unwraps && wrapped == key) {
          state := ERROR_LOCKED;
          return false;
        }
        hwSeed := key;
      }
      return true;
    }

    /** The conservative burn of sec_boot. */
    method BurnReserved(recCtr: nat, burn: CommitHw) returns (on: bool)
      requires Valid() && HwShape(burn)
      modifies this
      ensures Valid()
      ensures (Snapshot(), on) == Burn(old(Snapshot()), recCtr, burn)
    {
      hide Commit;
      var c := StateCommit(IDLE, (recCtr + 1) % WORD, burn);
      if c == PowerLost {
        return false;
      }
      if c != Committed {
        state := ERROR_LOCKED;
        return true;
      }
      factoryLocked := true;
      return true;
    }

    /** Recovery of the chosen record. */
    method RecoverFrom(id: nat, v0: bool, v1: bool, burn: CommitHw) returns (on: bool)
      requires Valid() && id < 2 && HwShape(burn)
      modifies this
      ensures Valid()
      ensures (Snapshot(), on) == Recover(old(Snapshot()), id, v0, v1, burn)
    {
      hide Burn, StateOf, TxOf;
      active := id;
      slotValid := [v0, v1];
      lastTx := TxOf(slots[id].body);
      var recState, recCtr := StateOf(slots[id].body), CtrOf(slots[id].body);
      if recState == RESERVED {
        on := BurnReserved(recCtr, burn);
      } else {
        on := true;
        Restore(recState, recCtr);
      }
    }

    /** A record that needs no commit: take its state and counter over. */
    method Restore(recState: nat, recCtr: nat)
      requires Valid() && recState != RESERVED && recCtr < WORD
      modifies this
      ensures Valid()
      ensures Snapshot() ==
              if recState == KEYGEN_PENDING then
                old(Snapshot()).(keygenPending := true, state := KEYGEN_PENDING, ctr := recCtr, factoryLocked := true)
              else if recState == IDLE || recState == EXHAUSTED then
                old(Snapshot()).(state := recState, ctr := recCtr, factoryLocked := true)
              else Lock(old(Snapshot()))
    {
      if recState == KEYGEN_PENDING {
        keygenPending := true;
        state, ctr := KEYGEN_PENDING, recCtr;
        factoryLocked := true;
      } else if recState == IDLE || recState == EXHAUSTED {
        state, ctr := recState, recCtr;
        factoryLocked := true;
      } else {
        state := ERROR_LOCKED;
      }
    }

    /** sec_boot */
    method SecBoot(key: KeyId, hw: BootHw) returns (on: bool)
      requires Valid() && HwShape(hw.burn)
      modifies this
      ensures Valid()
      ensures (Snapshot(), on) == Boot(old(Snapshot()), key, hw)
    {
      hide BootFromSlots, BootKeys, Validates;
      ghost var d0 := Snapshot();
      var ready := LoadKeys(key, hw);
      ghost var d := Snapshot();
      if !ready {
        return true;
      }
      StateKey(d0, d, key, hw);
      var v0 := RecValid(0, hw.hmac0);
      var v1 := RecValid(1, hw.hmac1);
      on := FromSlots(v0, v1, hw.burn);
    }

    /** The second half of sec_boot: slot choice and recovery. */
    method FromSlots(v0: bool, v1: bool, burn: CommitHw) returns (on: bool)
      requires Valid() && HwShape(burn)
      modifies this
      ensures Valid()
      ensures (Snapshot(), on) == BootFromSlots(old(Snapshot()), v0, v1, burn)
    {
      hide Recover, TxOf, BlankSlot, Choose, WithoutRecord;
      var locked, chosen := ChooseSlot(v0, v1);
      if locked {
        state := ERROR_LOCKED;
        return true;
      }
      if chosen < 0 {
        NoRecord();
        return true;
      }
      on := RecoverFrom(chosen, v0, v1, burn);
    }

    /** The end of sec_boot when no record is valid. */
    method NoRecord()
      requires Valid()
      modifies this
      ensures Valid()
      ensures Snapshot() == WithoutRecord(old(Snapshot()))
    {
      hide BlankSlot;
      if factoryLocked {
        if AllZero(Snapshot()) {
          state, ctr := IDLE, 0;
        } else {
          state := ERROR_LOCKED;
        }
      }
    }

    /** Which of the valid records counts: the later one, or the first of two equal ones; two different records with
        one tx lock the device. */
    method ChooseSlot(v0: bool, v1: bool) returns (locked: bool, chosen: int)
      requires Valid()
      ensures -1 <= chosen < 2
      ensures Choose(Snapshot(), v0, v1) ==
              if locked then Conflict else if chosen < 0 then NoSlot else Chosen(chosen)
    {
      hide TxOf;
      locked, chosen := false, -1;
      if v0 && v1 {
        if TxOf(slots[0].body) == TxOf(slots[1].body) {
          if slots[0].body != slots[1].body {
            locked := true;
            return;
          }
          chosen := 0;
        } else {
          chosen := if TxOf(slots[0].body) > TxOf(slots[1].body) then 0 else 1;
        }
      } else if v0 {
        chosen := 0;
      } else if v1 {
        chosen := 1;
      }
    }

    lemma BlankShape()
      ensures SlotShape(BlankSlot())
    {
    }

    /** sec_keygen_new */
    method SecKeygenNew(freshKey: KeyId, hw: KeygenHw) returns (ok: bool)
      requires Valid()
      modifies this
      ensures Valid()
      ensures (Snapshot(), ok) == KeygenNew(old(Snapshot()), freshKey, hw)
    {
      hide BlankSlot;
      BlankShape();
      if !hw.healthy {
        return false;
      }
      if !hw.seedLoads {
        return false;
      }
      hwSeed := freshKey;
      if !hw.loads {
        if hw.kStateLoaded {
          kState := freshKey;
        }
        return false;
      }
      kState := freshKey;
      if !hw.wraps {
        return false;
      }
      Activate(freshKey);
      return true;
    }

    /** The new key has no signing history: keep its blob, clear both slots, start at counter 0. */
    method Activate(freshKey: KeyId)
      requires Valid()
      modifies this
      ensures Valid()
      ensures Snapshot() == old(Snapshot()).(
                wrapped := freshKey, slots := [BlankSlot(), BlankSlot()], slotValid := [false, false],
                active := 0, state := IDLE, ctr := 0, lastTx := 0,
                keyLoaded := true, factoryLocked := true, keygenPending := false, keyIndex := old(keyIndex) + 1)
    {
      hide BlankSlot;
      ClearRecords();
      wrapped := freshKey;
      state, ctr := IDLE, 0;
      keyLoaded, factoryLocked, keygenPending := true, true, false;
      keyIndex := keyIndex + 1;
    }

    method ClearRecords()
      requires Valid()
      modifies this
      ensures Valid()
      ensures Snapshot() == old(Snapshot()).(slots := [BlankSlot(), BlankSlot()], slotValid := [false, false],
                                             active := 0, lastTx := 0)
    {
      hide BlankSlot;
      BlankShape();
      slots, slotValid := [BlankSlot(), BlankSlot()], [false, false];
      active, lastTx := 0, 0;
    }
  }

  lemma StateKey(d0: Sec, d: Sec, key: KeyId, hw: BootHw)
    requires BootKeys(d0, key, hw) == (d, true)
    ensures d.kState == key
  {
  }
}
