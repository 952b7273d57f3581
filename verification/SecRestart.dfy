/** What a restart on working hardware leads to, from every state of a run: power cycle, the host reloads the wrapped
    seed, sec_boot. */
module SecRestart {
  import opened Words
  import opened SecState
  import opened SecRuns
  import opened SecReserve

  /** The device as sec_boot finds it; each slot may have been lost while it was off. */
  ghost function Reloaded(w: World, l0: bool, l1: bool): (d: Sec)
    requires Shape(w.dev)
    ensures Shape(d) && d.wrapped == w.hostBlob && d.state == BOOTING && d.lastTx == 0
    ensures d.slots == [Lose(w.dev.slots[0], l0), Lose(w.dev.slots[1], l1)]
  {
    Step(Step(w, PowerCycle(l0, l1)), WrapLoad).dev
  }

  ghost predicate Valid(d: Sec, id: nat, key: KeyId)
    requires Shape(d) && id < 2
  {
    Validates(d.slots[id], id, key)
  }

  /** The counter value of the boot lies above every record it can read. */
  ghost predicate Above(d: Sec, key: KeyId, tx: nat)
    requires Shape(d)
  {
    forall id :: 0 <= id < 2 && Valid(d, id, key) ==> TxOf(d.slots[id].body) < tx
  }

  /** The valid slot with the larger transaction number. */
  ghost predicate Newest(d: Sec, id: nat, key: KeyId)
    requires Shape(d) && id < 2
  {
    Valid(d, id, key) && (Valid(d, 1 - id, key) ==> TxOf(d.slots[1 - id].body) < TxOf(d.slots[id].body))
  }

  /** Ready to go on under the key: everything a signature needs but the state and the counter. */
  ghost predicate Started(d: Sec, key: KeyId, tx: nat) {
    Shape(d) && Operational(d.state) && d.keyLoaded && d.hwSeed == key && d.lastTx <= tx
  }

  ghost predicate NothingLeft(d: Sec, key: KeyId)
    requires Shape(d)
  {
    !Valid(d, 0, key) && !Valid(d, 1, key) && (d.slots[0] != BlankSlot() || d.slots[1] != BlankSlot())
  }

  ghost predicate PastReleases(w: World, ctr: nat) {
    w.floor <= ctr && forall i :: 0 <= w.epoch <= i < |w.log| ==> w.log[i].q < ctr
  }

  /** Blank slots start at 0, and otherwise the newest valid record decides. */
  ghost predicate StartCounter(d: Sec, key: KeyId, d': Sec)
    requires Shape(d)
  {
    && (d.slots[0] == d.slots[1] == BlankSlot() ==> d'.state == IDLE && d'.ctr == 0)
    && forall id :: 0 <= id < 2 && Newest(d, id, key) ==> d'.ctr == RecoversTo(d.slots[id].body)
  }

  lemma SomeNewest(d: Sec, key: KeyId) returns (id: nat)
    requires TxDistinct(d) && (Valid(d, 0, key) || Valid(d, 1, key))
    ensures id < 2 && Newest(d, id, key)
  {
    hide Validates, MagicOf, TxOf, TagTx;
    if Valid(d, 0, key) && Valid(d, 1, key) {
      ValidTag(d.slots[0], 0, key);
      ValidTag(d.slots[1], 1, key);
      id := if TxOf(d.slots[0].body) > TxOf(d.slots[1].body) then 0 else 1;
    } else {
      id := if Valid(d, 0, key) then 0 else 1;
    }
  }

  lemma ValidTag(s: Slot, id: nat, key: KeyId)
    requires SlotShape(s) && id < 2 && Validates(s, id, key)
    ensures s.tag.Mac? && s.tag.key == key && |s.tag.message| == 49 && TagTx(s.tag) == TxOf(s.body)
  {
    hide TxOf, MagicOf;
    assert (s.body + [id])[..48] == s.body;
  }

  lemma ReloadedKeeps(w: World, l0: bool, l1: bool)
    requires Shape(w.dev) && Safe(w) && Ordered(w)
    ensures DeviceSafe(Reloaded(w, l0, l1), w.floor) && TxDistinct(Reloaded(w, l0, l1))
  {
    hide Safe, Ordered, DeviceSafe, TxDistinct;
    var w1 := Step(w, PowerCycle(l0, l1));
    StepSafe(w, PowerCycle(l0, l1));
    StepOrdered(w, PowerCycle(l0, l1));
    StepSafe(w1, WrapLoad);
    StepOrdered(w1, WrapLoad);
    KeepsSafe(Step(w1, WrapLoad));
  }

  lemma KeepsSafe(w: World)
    requires Safe(w) && Ordered(w)
    ensures DeviceSafe(w.dev, w.floor) && TxDistinct(w.dev)
  {
    hide DeviceSafe, TxDistinct, StrictlyIncreasing;
  }

  /** A slot that validates: the device starts from the newest such record, and that one recovers above the floor. */
  lemma StartsFromNewest(d: Sec, id: nat, key: KeyId, tx: nat, floor: nat)
    requires DeviceSafe(d, floor) && Shape(d) && id < 2 && Newest(d, id, key) && Above(d, key, tx)
    requires d.wrapped == key != NO_KEY && tx < WORD
    ensures var d' := Boot(d, key, HealthyBoot(tx)).0;
            && Started(d', key, tx) && d'.ctr == RecoversTo(d.slots[id].body) >= floor
            && d'.state == (if StateOf(d.slots[id].body) == RESERVED then IDLE else StateOf(d.slots[id].body))
  {
    hide Boot, TagSafe, AllZero, Validates, RecoversTo, StateOf, TxOf, MagicOf;
    ValidatesTag(d.slots[id], id, key, floor);
    HealthyBootRecovers(d, id, key, tx);
  }

  /** No slot validates: the device starts at 0 if and only if both are blank, and locks otherwise. */
  lemma StartsBlankOrLocks(d: Sec, key: KeyId, tx: nat)
    requires Shape(d) && !Valid(d, 0, key) && !Valid(d, 1, key) && d.wrapped == key != NO_KEY && tx < WORD
    ensures var d' := Boot(d, key, HealthyBoot(tx)).0;
            && (d.slots[0] == d.slots[1] == BlankSlot() ==>
                  Started(d', key, d.lastTx) && d'.state == IDLE && d'.ctr == 0 && d'.slots == d.slots)
            && (d.slots[0] != BlankSlot() || d.slots[1] != BlankSlot() ==> d'.state == ERROR_LOCKED)
  {
    hide Validates, BlankSlot;
    var d1 := BootKeys(d, key, HealthyBoot(tx)).0;
    assert d1.slots == d.slots;
    assert Choose(d1, false, false) == NoSlot;
  }

  /** In every state of a run of a device that has a key: after power cycle, reload and a boot on working hardware the
      device is locked if and only if no slot validates and not both are blank. Otherwise it goes on, at 0 from blank
      slots and else where the newest valid record leads, above everything released. */
  lemma HealthyRestart(w: World, l0: bool, l1: bool, tx: nat)
    requires Shape(w.dev) && Safe(w) && Ordered(w) && w.hostBlob != NO_KEY && tx < WORD
    requires Above(Reloaded(w, l0, l1), w.hostBlob, tx)
    ensures var d := Reloaded(w, l0, l1);
            var d' := Boot(d, w.hostBlob, HealthyBoot(tx)).0;
            && (d'.state == ERROR_LOCKED <==> NothingLeft(d, w.hostBlob))
            && (d'.state != ERROR_LOCKED ==> Started(d', w.hostBlob, tx) && PastReleases(w, d'.ctr))
            && StartCounter(d, w.hostBlob, d')
  {
    hide Boot, Reloaded, Newest, Above, RecoversTo, DeviceSafe, TxDistinct, Validates, BlankSlot, StrictlyIncreasing;
    var key := w.hostBlob;
    var d := Reloaded(w, l0, l1);
    ReloadedKeeps(w, l0, l1);
    if Valid(d, 0, key) || Valid(d, 1, key) {
      var id := SomeNewest(d, key);
      StartsFromNewest(d, id, key, tx, w.floor);
      OneNewest(d, id, key);
    } else {
      StartsBlankOrLocks(d, key, tx);
      NewestValid(d, key);
      FloorOfBlank(d, w.floor);
    }
  }

  lemma OneNewest(d: Sec, id: nat, key: KeyId)
    requires Shape(d) && id < 2 && Newest(d, id, key)
    ensures !Newest(d, 1 - id, key) && (Valid(d, 0, key) || Valid(d, 1, key))
    ensures d.slots[id] != BlankSlot()
  {
    hide TxOf, MagicOf;
    assert BlankSlot().tag == Zero;
  }

  lemma NewestValid(d: Sec, key: KeyId)
    requires Shape(d)
    ensures forall id :: 0 <= id < 2 && Newest(d, id, key) ==> Valid(d, id, key)
  {
    hide Validates, TxOf;
  }

  lemma FloorOfBlank(d: Sec, floor: nat)
    requires DeviceSafe(d, floor)
    ensures Shape(d) && (d.slots[0] == d.slots[1] == BlankSlot() ==> floor == 0)
  {
    hide BlankSlot, TagSafe;
  }

  /** Such a device signs: on working hardware the next signature releases its counter. */
  lemma RestartSigns(w: World, l0: bool, l1: bool, tx: nat, maxCtr: nat)
    requires Shape(w.dev) && Safe(w) && Ordered(w) && w.hostBlob != NO_KEY && tx + 2 < WORD
    requires Above(Reloaded(w, l0, l1), w.hostBlob, tx)
    ensures var d' := Boot(Reloaded(w, l0, l1), w.hostBlob, HealthyBoot(tx)).0;
            d'.state == IDLE && d'.ctr < maxCtr < WORD ==>
              Shape(d') && Sign(d', maxCtr, GoodSign(tx)).1 == Released(d'.ctr)
  {
    hide Boot, Sign, Reloaded, Newest, Above, RecoversTo, Safe, Ordered, Valid, BlankSlot;
    HealthyRestart(w, l0, l1, tx);
    var d' := Boot(Reloaded(w, l0, l1), w.hostBlob, HealthyBoot(tx)).0;
    if d'.state == IDLE && d'.ctr < maxCtr < WORD {
      HealthySignReleases(d', maxCtr, tx);
    }
  }

  /** A restart between a key rotation and the first signature: the first index of the new key is released. */
  lemma RotationThenRestart(w: World, tx: nat, maxCtr: nat)
    requires Shape(w.dev) && Safe(w) && Ordered(w) && !w.off && tx + 2 < WORD && 0 < maxCtr < WORD
    ensures var w' := Step(w, FirstCommands()[0]);
            Shape(w'.dev) && w'.hostBlob == w.nextKey != NO_KEY
            && var d' := Boot(Reloaded(w', false, false), w'.hostBlob, HealthyBoot(tx)).0;
               Shape(d') && d'.state == IDLE && d'.ctr == 0 && Sign(d', maxCtr, GoodSign(tx)).1 == Released(0)
  {
    hide Boot, Sign, Reloaded, Newest, RecoversTo, Ordered, BlankSlot, DeviceSafe;
    var w' := Step(w, FirstCommands()[0]);
    StepSafe(w, FirstCommands()[0]);
    StepOrdered(w, FirstCommands()[0]);
    BlankSafe();
    SafeShape(w');
    assert w'.dev.slots == [BlankSlot(), BlankSlot()];
    var d := Reloaded(w', false, false);
    BlankInvalid(w'.hostBlob);
    HealthyRestart(w', false, false, tx);
    RestartSigns(w', false, false, tx, maxCtr);
  }

  lemma BlankInvalid(key: KeyId)
    ensures SlotShape(BlankSlot()) && !Validates(BlankSlot(), 0, key) && !Validates(BlankSlot(), 1, key)
  {
  }

  // ---- any hardware ----

  /** The key registers are loaded and the seed, if the host sent one, unwraps under this key. */
  ghost predicate KeysCome(d: Sec, key: KeyId, hw: BootHw) {
    hw.loads && (d.wrapped == NO_KEY || (hw.unwraps && d.wrapped == key))
  }

  /** The readable record with the larger transaction number. */
  ghost predicate Leads(d: Sec, id: nat, key: KeyId, hw: BootHw)
    requires Shape(d) && id < 2
  {
    && Readable(d, key, hw, id)
    && (Readable(d, key, hw, 1 - id) ==> TxOf(d.slots[1 - id].body) < TxOf(d.slots[id].body))
  }

  ghost predicate NoneReadable(d: Sec, key: KeyId, hw: BootHw)
    requires Shape(d)
  {
    !Readable(d, key, hw, 0) && !Readable(d, key, hw, 1)
  }

  /** The record is resumed at once, or reserved and the burn takes effect. */
  ghost predicate Resumes(s: Slot, burn: CommitHw)
    requires SlotShape(s)
  {
    StateOf(s.body) == RESERVED ==> TakesEffect(burn, TxOf(s.body))
  }

  /** A device that was locked by the factory or has a wrapped seed starts without records only from blank slots. */
  ghost predicate Provisioned(d: Sec) {
    d.factoryLocked || d.wrapped != NO_KEY
  }

  ghost predicate Starts(d: Sec, key: KeyId, hw: BootHw)
    requires Shape(d)
  {
    && KeysCome(d, key, hw)
    && ((exists id :: 0 <= id < 2 && Leads(d, id, key, hw) && Resumes(d.slots[id], hw.burn))
        || (NoneReadable(d, key, hw) && Provisioned(d) && d.slots[0] == d.slots[1] == BlankSlot()))
  }

  lemma RecoverStarts(d: Sec, id: nat, v0: bool, v1: bool, burn: CommitHw)
    requires Shape(d) && id < 2 && HwShape(burn) && Operational(StateOf(d.slots[id].body)) && d.state == BOOTING
    ensures var (d', on) := Recover(d, id, v0, v1, burn);
            && (Operational(d'.state) <==> Resumes(d.slots[id], burn))
            && (on && !Operational(d'.state) ==> d'.state == ERROR_LOCKED)
            && (!on ==> d'.state == BOOTING && CutsPower(burn, TxOf(d.slots[id].body)))
            && d'.keyLoaded == d.keyLoaded && d'.kState == d.kState && d'.hwSeed == d.hwSeed
  {
    hide Commit, StateOf, TxOf, CtrOf;
    var body := d.slots[id].body;
    var d1 := d.(active := id, slotValid := [v0, v1], lastTx := TxOf(body));
    if StateOf(body) == RESERVED {
      CommitOutcome(d1, IDLE, (CtrOf(body) + 1) % WORD, burn);
      CommitFrame(d1, IDLE, (CtrOf(body) + 1) % WORD, burn);
    }
  }

  lemma CommitFrame(d: Sec, state: nat, ctr: nat, hw: CommitHw)
    requires Shape(d) && HwShape(hw) && ctr < WORD
    ensures var (d', rc) := Commit(d, state, ctr, hw);
            && d'.kState == d.kState && d'.hwSeed == d.hwSeed && d'.keyLoaded == d.keyLoaded
            && d'.state == if rc == Committed then state else d.state
  {
    hide Record, TornSlot;
  }

  /** One of two readable records leads, and the boot chooses it. */
  lemma LeaderChosen(d: Sec, key: KeyId, hw: BootHw) returns (id: nat)
    requires TxDistinct(d) && !NoneReadable(d, key, hw)
    ensures id < 2 && Leads(d, id, key, hw) && !Leads(d, 1 - id, key, hw)
    ensures Choose(d, Readable(d, key, hw, 0), Readable(d, key, hw, 1)) == Chosen(id)
  {
    hide Validates, MagicOf, TxOf, TagTx;
    if Readable(d, key, hw, 0) && Readable(d, key, hw, 1) {
      ValidTag(d.slots[0], 0, key);
      ValidTag(d.slots[1], 1, key);
      id := if TxOf(d.slots[0].body) > TxOf(d.slots[1].body) then 0 else 1;
    } else {
      id := if Readable(d, key, hw, 0) then 0 else 1;
    }
  }

  /** The boot from the keys on, by what can be read. */
  lemma BootByReadable(d: Sec, key: KeyId, hw: BootHw)
    requires Shape(d) && HwShape(hw.burn)
    ensures var (d1, ready) := BootKeys(d, key, hw);
            && d1.slots == d.slots && Shape(d1)
            && Boot(d, key, hw) ==
               if ready then BootFromSlots(d1, Readable(d, key, hw, 0), Readable(d, key, hw, 1), hw.burn) else (d1, true)
  {
    hide Validates, BootFromSlots;
  }

  lemma SameChoice(d: Sec, d1: Sec, v0: bool, v1: bool)
    requires Shape(d) && Shape(d1) && d1.slots == d.slots
    ensures Choose(d, v0, v1) == Choose(d1, v0, v1)
  {
    hide TxOf;
  }

  lemma LeaderSafe(d: Sec, id: nat, key: KeyId, hw: BootHw, floor: nat)
    requires DeviceSafe(d, floor) && Shape(d) && id < 2 && Leads(d, id, key, hw)
    ensures Operational(StateOf(d.slots[id].body))
  {
    hide TagSafe, Validates, TxOf, StateOf, RecoversTo;
    ValidatesTag(d.slots[id], id, key, floor);
  }

  /** sec_boot for every outcome of the hardware: when the device is operational afterwards, when it is locked, and with
      which keys it goes on. Power lost in the burn, or nothing found before provisioning, leaves it booting. */
  lemma BootStarts(d: Sec, key: KeyId, hw: BootHw, floor: nat)
    requires DeviceSafe(d, floor) && TxDistinct(d) && HwShape(hw.burn)
    ensures Shape(d)
    ensures var (d', on) := Boot(d, key, hw);
            && (Operational(d'.state) <==> Starts(d, key, hw))
            && (Operational(d'.state) ==>
                  d'.keyLoaded && d'.kState == key && d'.hwSeed == if d.wrapped == NO_KEY then d.hwSeed else key)
            && (on && !Starts(d, key, hw) ==>
                  (d'.state == BOOTING <==> KeysCome(d, key, hw) && NoneReadable(d, key, hw) && !Provisioned(d))
                  && (d'.state == ERROR_LOCKED <==> d'.state != BOOTING))
            && (!on ==> d'.state == BOOTING)
  {
    hide Boot, Readable, DeviceSafe, TxDistinct, Recover, BlankSlot, Resumes, TxOf, StateOf;
    DeviceSafeShape(d, floor);
    BootByReadable(d, key, hw);
    var d1 := BootKeys(d, key, hw).0;
    if !NoneReadable(d, key, hw) {
      var id := LeaderChosen(d, key, hw);
      assert Choose(d1, Readable(d, key, hw, 0), Readable(d, key, hw, 1)) == Chosen(id) by {
        SameChoice(d, d1, Readable(d, key, hw, 0), Readable(d, key, hw, 1));
      }
      assert Leads(d, id, key, hw);
      LeaderSafe(d, id, key, hw, floor);
      if BootKeys(d, key, hw).1 {
        RecoverStarts(d1, id, Readable(d, key, hw, 0), Readable(d, key, hw, 1), hw.burn);
      }
    }
  }
}
