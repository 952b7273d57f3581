/** Safety of the signing-state domain over whole runs: every order of commands, every hardware failure,
    power loss at any byte of a slot write, loss of slots while off, key rotation. */
module SecRuns {
  import opened Words
  import opened SecState

  // ---- what the device keeps ----

  /** The counter that recovery from a record with this body reaches; no 32-bit wrap taken into account. */
  function RecoversTo(body: Bytes): nat
    requires |body| == 48
  {
    if StateOf(body) == RESERVED then CtrOf(body) + 1 else CtrOf(body)
  }

  ghost predicate Operational(state: nat) {
    state in {IDLE, RESERVED, KEYGEN_PENDING, EXHAUSTED}
  }

  /** Whatever record the tag authenticates is in a state that a boot can resume, and recovers to a counter of at
      least `floor`, without wrapping. */
  ghost predicate TagSafe(t: Tag, floor: nat) {
    t.Mac? ==>
      && |t.message| == 49 && Operational(StateOf(t.message[..48]))
      && floor <= RecoversTo(t.message[..48]) < WORD
  }

  /** All indices below `floor` may be spent: no record and no counter leads back below it. */
  ghost predicate DeviceSafe(d: Sec, floor: nat) {
    && Shape(d)
    && TagSafe(d.slots[0].tag, floor) && TagSafe(d.slots[1].tag, floor)
    && (Operational(d.state) ==> floor <= d.ctr)
    && (AllZero(d) ==> floor == 0)
  }

  lemma RecordSafe(key: KeyId, id: nat, state: nat, ctr: nat, tx: nat, floor: nat)
    requires id < 2 && Operational(state) && ctr < WORD && tx < WORD
    requires floor <= ctr || (state == RESERVED && floor <= ctr + 1)
    requires state == RESERVED ==> ctr + 1 < WORD
    ensures TagSafe(Record(key, id, state, ctr, tx).tag, floor)
    ensures Tagged(Record(key, id, state, ctr, tx), id)
    ensures TxOf(Record(key, id, state, ctr, tx).body) == tx
    ensures RecoversTo(Record(key, id, state, ctr, tx).body) == if state == RESERVED then ctr + 1 else ctr
    ensures Record(key, id, state, ctr, tx).tag.message[..48] == Record(key, id, state, ctr, tx).body
    ensures Record(key, id, state, ctr, tx).body[0] != 0
  {
    hide EncodeBody;
    BodyRoundTrip(state, ctr, tx);
    var body := EncodeBody(state, ctr, tx);
    assert (body + [id])[..48] == body;
    FirstByte(body);
  }

  lemma FirstByte(body: Bytes)
    requires |body| == 48 && MagicOf(body) == MAGIC
    ensures body[0] != 0
  {
  }

  lemma TornNotBlank(prior: Slot, written: Slot, k: nat)
    requires SlotShape(prior) && SlotShape(written) && written.body[0] != 0 && k <= 64
    ensures TornSlot(prior, written, k) == BlankSlot() ==> prior == BlankSlot()
  {
    var t := TornSlot(prior, written, k);
    if k == 0 {
      assert t.body == prior.body;
    } else {
      assert t.body[0] == written.body[0];
      assert BlankSlot().body[0] == 0;
    }
  }

  /** Every outcome of a commit whose counter is not below the floor keeps the device safe. */
  lemma CommitSafe(d: Sec, state: nat, ctr: nat, hw: CommitHw, floor: nat)
    requires DeviceSafe(d, floor) && HwShape(hw)
    requires Operational(state) && floor <= ctr < WORD && (state == RESERVED ==> ctr + 1 < WORD)
    ensures DeviceSafe(Commit(d, state, ctr, hw).0, floor)
    ensures Commit(d, state, ctr, hw).1 == Committed ==>
              && Commit(d, state, ctr, hw).0.state == state && Commit(d, state, ctr, hw).0.ctr == ctr
    ensures Commit(d, state, ctr, hw).1 != Committed ==>
              && Commit(d, state, ctr, hw).0.state == d.state && Commit(d, state, ctr, hw).0.ctr == d.ctr
              && Commit(d, state, ctr, hw).0.active == d.active
              && Commit(d, state, ctr, hw).0.slots[d.active] == d.slots[d.active]
    ensures Commit(d, state, ctr, hw).0.hwSeed == d.hwSeed && Commit(d, state, ctr, hw).0.wrapped == d.wrapped
  {
    hide Record, BlankSlot, TornSlot, TagSafe, RecoversTo, StateOf, CtrOf, TxOf, MagicOf, Tagged;
    var id := 1 - d.active;
    match hw {
      case Works(tx) => RecordSafe(d.kState, id, state, ctr, tx, floor); RecordNotBlank(d.kState, id, state, ctr, tx);
      case ReadBackFails(tx) => RecordNotBlank(d.kState, id, state, ctr, tx); GarbledSafe(floor);
      case CutWriting(tx, k) =>
        var written := Record(d.kState, id, state, ctr, tx);
        RecordSafe(d.kState, id, state, ctr, tx, floor);
        RecordNotBlank(d.kState, id, state, ctr, tx);
        TornNotBlank(d.slots[id], written, k);
        TornTag(d.slots[id], written, k, floor);
      case _ =>
    }
  }

  lemma GarbledSafe(floor: nat)
    ensures TagSafe(Garbled, floor)
  {
  }

  lemma RecordNotBlank(key: KeyId, id: nat, state: nat, ctr: nat, tx: nat)
    requires id < 2
    ensures SlotShape(Record(key, id, state, ctr, tx))
    ensures Record(key, id, state, ctr, tx) != BlankSlot()
    ensures Record(key, id, state, ctr, tx).(tag := Garbled) != BlankSlot()
  {
  }

  lemma TornTag(prior: Slot, written: Slot, k: nat, floor: nat)
    requires SlotShape(prior) && SlotShape(written) && k <= 64
    requires TagSafe(prior.tag, floor) && TagSafe(written.tag, floor)
    ensures SlotShape(TornSlot(prior, written, k)) && TagSafe(TornSlot(prior, written, k).tag, floor)
  {
  }

  /** sec_sign: what it releases was not spent before, and once released is spent in every record. */
  lemma SignSafe(d: Sec, maxCtr: nat, hw: SignHw, floor: nat)
    requires DeviceSafe(d, floor) && maxCtr < WORD
    requires HwShape(hw.reserve) && HwShape(hw.reserveBurn) && HwShape(hw.commit) && HwShape(hw.burn)
    ensures var (d', rc) := Sign(d, maxCtr, hw);
            && (rc.Released? ==> floor <= rc.q < maxCtr && rc.q == d.ctr && d.hwSeed != NO_KEY && DeviceSafe(d', rc.q + 1))
            && (!rc.Released? ==> DeviceSafe(d', floor))
            && d'.hwSeed == d.hwSeed && d'.wrapped == d.wrapped
  {
    hide Commit, TagSafe, AllZero;
    if d.state == IDLE && d.keyLoaded && d.ctr < maxCtr {
      var q := d.ctr;
      CommitSafe(d, RESERVED, q, hw.reserve, floor);
      var (d1, rc1) := Commit(d, RESERVED, q, hw.reserve);
      if rc1 == Refused {
        CommitSafe(d1, IDLE, q + 1, hw.reserveBurn, floor);
      } else if rc1 == Committed && !hw.cutSigning {
        CommitSafe(d1, IDLE, q + 1, hw.burn, floor);
        CommitSafe(d1, IDLE, q + 1, hw.commit, floor);
        var (d2, rc2) := Commit(d1, IDLE, q + 1, hw.commit);
        if rc2 == Refused {
          CommitSafe(d2, IDLE, q + 1, hw.burn, floor);
        } else if rc2 == Committed {
          ReserveThenCommit(d, q, hw.reserve, hw.commit, floor);
        }
      }
    } else if d.state == IDLE {
      SameSlotsSafe(d, d.(state := EXHAUSTED), floor);
    }
  }

  /** Reserve and commit fill both slots with records that recover past q. */
  lemma ReserveThenCommit(d: Sec, q: nat, hw1: CommitHw, hw2: CommitHw, floor: nat)
    requires DeviceSafe(d, floor) && floor <= q && q + 1 < WORD && HwShape(hw1) && HwShape(hw2)
    requires Commit(d, RESERVED, q, hw1).1 == Committed
    requires Commit(Commit(d, RESERVED, q, hw1).0, IDLE, q + 1, hw2).1 == Committed
    ensures DeviceSafe(Commit(Commit(d, RESERVED, q, hw1).0, IDLE, q + 1, hw2).0, q + 1)
  {
    hide Record, TagSafe, BlankSlot, StateOf, CtrOf, TxOf, MagicOf, Tagged, RecoversTo;
    RecordSafe(d.kState, 1 - d.active, RESERVED, q, hw1.tx, q + 1);
    RecordSafe(d.kState, d.active, IDLE, q + 1, hw2.tx, q + 1);
    RecordNotBlank(d.kState, 1 - d.active, RESERVED, q, hw1.tx);
    RecordNotBlank(d.kState, d.active, IDLE, q + 1, hw2.tx);
  }

  /** The one UART COMMIT that would make the boot burn wrap to 0. */
  predicate WrappingReserve(param: nat, ctr: nat) {
    param % 0x1_0000 == RESERVED && ctr == WORD - 1
  }

  lemma UartSafe(d: Sec, param: nat, ctr: nat, hw: CommitHw, floor: nat)
    requires DeviceSafe(d, floor) && ctr < WORD && HwShape(hw) && !WrappingReserve(param, ctr)
    ensures var d' := UartCommit(d, param, ctr, hw).0;
            DeviceSafe(d', floor) && d'.hwSeed == d.hwSeed && d'.wrapped == d.wrapped
  {
    hide Commit, TagSafe;
    if Operational(d.state) && ctr >= d.ctr && UartAllowed(d, param % 0x1_0000, ctr) {
      CommitSafe(d, param % 0x1_0000, ctr, hw, floor);
    }
  }

  lemma ValidatesTag(s: Slot, id: nat, key: KeyId, floor: nat)
    requires SlotShape(s) && id < 2 && Validates(s, id, key) && TagSafe(s.tag, floor)
    ensures floor <= RecoversTo(s.body) < WORD && Operational(StateOf(s.body))
  {
    assert (s.body + [id])[..48] == s.body;
  }

  /** Safety depends on the slots, the state and the counter only. */
  lemma SameSlotsSafe(d: Sec, d': Sec, floor: nat)
    requires DeviceSafe(d, floor) && d'.slots == d.slots
    requires |d'.slotValid| == 2 && d'.active < 2 && d'.ctr < WORD
    requires Operational(d'.state) ==> floor <= d'.ctr
    ensures DeviceSafe(d', floor)
  {
    hide TagSafe, BlankSlot;
  }

  lemma BurnSafe(d: Sec, recCtr: nat, burn: CommitHw, floor: nat)
    requires DeviceSafe(d, floor) && HwShape(burn) && !Operational(d.state)
    requires floor <= recCtr + 1 < WORD
    ensures Shape(d)
    ensures var d' := Burn(d, recCtr, burn).0;
            DeviceSafe(d', floor) && d'.hwSeed == d.hwSeed && d'.wrapped == d.wrapped
  {
    hide Commit, DeviceSafe;
    DeviceSafeShape(d, floor);
    CommitSafe(d, IDLE, recCtr + 1, burn, floor);
    var d1 := Commit(d, IDLE, recCtr + 1, burn).0;
    assert Shape(d1) by { DeviceSafeShape(d1, floor); }
    SameSlotsSafe(d1, Lock(d1), floor);
    if Commit(d, IDLE, recCtr + 1, burn).1 == Committed {
      SameSlotsSafe(d1, d1.(factoryLocked := true), floor);
    }
  }

  lemma DeviceSafeShape(d: Sec, floor: nat)
    requires DeviceSafe(d, floor)
    ensures Shape(d) && (Operational(d.state) ==> floor <= d.ctr)
  {
  }

  lemma RecoverSafe(d: Sec, id: nat, v0: bool, v1: bool, burn: CommitHw, floor: nat)
    requires Shape(d) && DeviceSafe(d, floor) && id < 2 && HwShape(burn) && !Operational(d.state)
    requires floor <= RecoversTo(d.slots[id].body) < WORD
    ensures var d' := Recover(d, id, v0, v1, burn).0;
            DeviceSafe(d', floor) && d'.hwSeed == d.hwSeed && d'.wrapped == d.wrapped
  {
    hide Burn, DeviceSafe, StateOf, TxOf, CtrOf, MagicOf;
    var body := d.slots[id].body;
    var d1 := d.(active := id, slotValid := [v0, v1], lastTx := TxOf(body));
    SameSlotsSafe(d, d1, floor);
    if StateOf(body) == RESERVED {
      BurnSafe(d1, CtrOf(body), burn, floor);
    } else {
      SameSlotsSafe(d, Recover(d, id, v0, v1, burn).0, floor);
    }
  }

  /** sec_boot, from any slots left by the past and with any key ID: recovery never goes below the floor. */
  lemma BootSafe(d: Sec, key: KeyId, hw: BootHw, floor: nat)
    requires DeviceSafe(d, floor) && HwShape(hw.burn)
    ensures var d' := Boot(d, key, hw).0;
            && DeviceSafe(d', floor) && d'.wrapped == d.wrapped
            && (d'.hwSeed == d.hwSeed || d'.hwSeed == d.wrapped)
  {
    hide TagSafe, Recover, Validates, BlankSlot;
    var (d1, ready) := BootKeys(d, key, hw);
    if ready {
      var v0 := hw.hmac0 && Validates(d1.slots[0], 0, key);
      var v1 := hw.hmac1 && Validates(d1.slots[1], 1, key);
      match Choose(d1, v0, v1)
      case Chosen(id) =>
        ValidatesTag(d1.slots[id], id, key, floor);
        RecoverSafe(d1, id, v0, v1, hw.burn, floor);
      case _ =>
    }
  }

  // ---- runs ----

  datatype Release = Release(seed: KeyId, q: nat)

  /** The device, the host's copy of the wrapped seed, the next fresh identity, and the ghost log of releases.
      Releases from `epoch` on belong to the current rotation; they are all below `floor`. */
  datatype World = World(dev: Sec, off: bool, hostBlob: KeyId, nextKey: KeyId,
                         log: seq<Release>, epoch: nat, floor: nat)

  datatype Command =
    | PowerCycle(lose0: bool, lose1: bool)
    | WrapLoad
    | BootCmd(key: KeyId, bootHw: BootHw)
    | SignCmd(maxCtr: nat, signHw: SignHw)
    | CommitCmd(param: nat, ctr: nat, commitHw: CommitHw)
    | KeygenCmd(keygenHw: KeygenHw)

  /** Host parameters are 32-bit words; the hardware answers are. */
  ghost predicate CommandShape(c: Command) {
    match c
    case BootCmd(_, hw) => HwShape(hw.burn)
    case SignCmd(m, hw) => m < WORD && HwShape(hw.reserve) && HwShape(hw.reserveBurn) && HwShape(hw.commit) && HwShape(hw.burn)
    case CommitCmd(_, ctr, hw) => ctr < WORD && HwShape(hw)
    case _ => true
  }

  /** A record slot lost while the device is off. */
  function Lose(s: Slot, lost: bool): Slot {
    if lost then s.(tag := Garbled) else s
  }

  function Step(w: World, c: Command): World
    requires Shape(w.dev) && CommandShape(c)
  {
    var d := w.dev;
    match c
    case PowerCycle(l0, l1) =>
      w.(dev := PowerOn(d.(slots := [Lose(d.slots[0], l0), Lose(d.slots[1], l1)])), off := false)
    case WrapLoad =>
      if w.off then w else w.(dev := d.(wrapped := w.hostBlob))
    case BootCmd(key, hw) =>
      if w.off then w else var (d', on) := Boot(d, key, hw); w.(dev := d', off := !on)
    case SignCmd(maxCtr, hw) =>
      if w.off then w
      else
        var (d', rc) := Sign(d, maxCtr, hw);
        if rc.Released? then w.(dev := d', log := w.log + [Release(d.hwSeed, rc.q)], floor := rc.q + 1)
        else w.(dev := d', off := rc == SignCut)
    case CommitCmd(param, ctr, hw) =>
      if w.off then w else var (d', rc) := UartCommit(d, param, ctr, hw); w.(dev := d', off := rc == UartCut)
    case KeygenCmd(hw) =>
      if w.off then w
      else
        var (d', ok) := KeygenNew(d, w.nextKey, hw);
        if ok then w.(dev := d', hostBlob := w.nextKey, nextKey := w.nextKey + 1, epoch := |w.log|, floor := 0)
        else w.(dev := d', nextKey := w.nextKey + 1)
  }

  /** No one-time index is released twice: under one key the released indices strictly increase. */
  ghost predicate StrictlyIncreasing(log: seq<Release>) {
    forall i, j :: 0 <= i < j < |log| && log[i].seed == log[j].seed ==> log[i].q < log[j].q
  }

  ghost predicate Safe(w: World) {
    && DeviceSafe(w.dev, w.floor)
    && w.epoch <= |w.log| && w.nextKey > NO_KEY
    && w.hostBlob < w.nextKey && w.dev.hwSeed < w.nextKey && w.dev.wrapped in {NO_KEY, w.hostBlob}
    && (forall i :: 0 <= i < |w.log| ==> NO_KEY != w.log[i].seed < w.nextKey)
    && (forall i :: 0 <= i < w.epoch ==> w.log[i].seed != w.dev.hwSeed && w.log[i].seed != w.hostBlob)
    && (forall i :: w.epoch <= i < |w.log| ==> w.log[i].q < w.floor)
    && StrictlyIncreasing(w.log)
  }

  /** A device that has just left sec_init, with nothing recorded and nothing released. */
  function FirstPowerOn(fused: bool): World {
    World(Sec([BlankSlot(), BlankSlot()], [false, false], 0, BOOTING, 0, 0, false, false, false, NO_KEY, 0, fused, NO_KEY, NO_KEY),
          false, NO_KEY, 1, [], 0, 0)
  }

  lemma FirstSafe(fused: bool)
    ensures Safe(FirstPowerOn(fused)) && Ordered(FirstPowerOn(fused))
  {
  }

  lemma KeygenSafe(w: World, hw: KeygenHw)
    requires Safe(w) && !w.off
    ensures Safe(Step(w, KeygenCmd(hw)))
  {
    hide TagSafe, BlankSlot;
    BlankSafe();
  }

  lemma BlankSafe()
    ensures TagSafe(BlankSlot().tag, 0) && SlotShape(BlankSlot())
  {
  }

  lemma ReleaseKeepsOrder(w: World, q: nat)
    requires Safe(w) && w.floor <= q && w.dev.hwSeed != NO_KEY
    ensures StrictlyIncreasing(w.log + [Release(w.dev.hwSeed, q)])
  {
  }

  lemma PowerCycleSafe(w: World, l0: bool, l1: bool)
    requires Safe(w)
    ensures Safe(Step(w, PowerCycle(l0, l1)))
  {
    hide TagSafe, BlankSlot;
    GarbledSafe(w.floor);
    LoseBlank(w.dev.slots[0], l0);
    LoseBlank(w.dev.slots[1], l1);
  }

  lemma LoseBlank(s: Slot, lost: bool)
    ensures Lose(s, lost) == BlankSlot() ==> s == BlankSlot()
  {
  }

  lemma StepSafe(w: World, c: Command)
    requires Safe(w) && CommandShape(c)
    requires c.CommitCmd? ==> !WrappingReserve(c.param, c.ctr)
    ensures Safe(Step(w, c))
  {
    hide DeviceSafe, Boot, Sign, UartCommit;
    assert Shape(w.dev) by { SafeShape(w); }
    match c
    case PowerCycle(l0, l1) => PowerCycleSafe(w, l0, l1);
    case WrapLoad => WrapSafe(w);
    case BootCmd(key, hw) => BootSafe(w.dev, key, hw, w.floor);
    case SignCmd(m, hw) =>
      SignSafe(w.dev, m, hw, w.floor);
      var rc := Sign(w.dev, m, hw).1;
      if rc.Released? {
        ReleaseKeepsOrder(w, rc.q);
      }
    case CommitCmd(param, ctr, hw) => UartSafe(w.dev, param, ctr, hw, w.floor);
    case KeygenCmd(hw) => if !w.off { KeygenSafe(w, hw); }
  }

  lemma SafeShape(w: World)
    requires Safe(w)
    ensures Shape(w.dev)
  {
  }

  lemma WrapSafe(w: World)
    requires Safe(w)
    ensures Safe(Step(w, WrapLoad))
  {
    hide TagSafe, BlankSlot;
  }

  /** Any command but the reservation that wraps takes w to w'. */
  ghost predicate Follows(w: World, c: Command, w': World) {
    && CommandShape(c) && (c.CommitCmd? ==> !WrappingReserve(c.param, c.ctr))
    && (Shape(w.dev) ==> w' == Step(w, c))
  }

  /** ws[i + 1] is what command i makes of ws[i]. */
  ghost predicate IsRun(ws: seq<World>, cs: seq<Command>) {
    && |ws| == |cs| + 1
    && forall i, next :: 0 <= i < |cs| && next == i + 1 ==> Follows(ws[i], cs[i], ws[next])
  }

  /** Every state of a run from the first power-up is safe and ordered. */
  lemma {:induction false} RunKeeps(fused: bool, ws: seq<World>, cs: seq<Command>, i: nat)
    requires IsRun(ws, cs) && ws[0] == FirstPowerOn(fused) && i <= |cs|
    ensures Safe(ws[i]) && Ordered(ws[i])
  {
    hide Safe, Ordered, Step, FirstPowerOn;
    if i == 0 {
      FirstSafe(fused);
    } else {
      RunKeeps(fused, ws, cs, i - 1);
      assert Follows(ws[i - 1], cs[i - 1], ws[i]);
      SafeShape(ws[i - 1]);
      StepSafe(ws[i - 1], cs[i - 1]);
      StepOrdered(ws[i - 1], cs[i - 1]);
    }
  }

  /** The indices released in any run, under any key, strictly increase. */
  lemma NoIndexTwice(fused: bool, ws: seq<World>, cs: seq<Command>)
    requires IsRun(ws, cs) && ws[0] == FirstPowerOn(fused)
    ensures StrictlyIncreasing(ws[|cs|].log)
  {
    RunKeeps(fused, ws, cs, |cs|);
  }

  // ---- either slot alone ----

  /** A boot whose hardware works, with the seed blob of `key` at hand; tx is the burn's counter value. */
  function HealthyBoot(tx: nat): BootHw {
    BootHw(true, true, true, true, true, Works(tx))
  }

  /** Power is cycled, the other slot is lost, and the host reloads the blob. */
  ghost function OtherSlotLost(w: World, id: nat): (w': World)
    requires Shape(w.dev) && id < 2
    ensures Shape(w'.dev)
  {
    Step(Step(w, PowerCycle(id == 1, id == 0)), WrapLoad)
  }

  /** In every reachable state each slot that validates recovers on its own, whatever happened to the other,
      to a counter above every index released since the last rotation. */
  lemma SlotAloneRecovers(w: World, id: nat, tx: nat)
    requires Shape(w.dev) && Safe(w) && id < 2 && w.hostBlob != NO_KEY
    requires Validates(w.dev.slots[id], id, w.hostBlob)
    requires TxOf(w.dev.slots[id].body) < tx < WORD
    ensures var d := Boot(OtherSlotLost(w, id).dev, w.hostBlob, HealthyBoot(tx)).0;
            && Operational(d.state)
            && d.ctr == RecoversTo(w.dev.slots[id].body)
            && forall i :: w.epoch <= i < |w.log| ==> w.log[i].q < d.ctr
  {
    hide RecoversTo, Boot, TagSafe, StateOf, TxOf, DeviceSafe, Validates, StrictlyIncreasing;
    var d := OtherSlotLost(w, id).dev;
    assert d.slots[1 - id].tag == Garbled && d.slots[id] == w.dev.slots[id];
    GarbledNotValid(d.slots[1 - id], 1 - id, w.hostBlob);
    SlotFloor(w, id);
    HealthyBootRecovers(d, id, w.hostBlob, tx);
  }

  lemma GarbledNotValid(s: Slot, id: nat, key: KeyId)
    requires SlotShape(s) && id < 2 && s.tag == Garbled
    ensures !Validates(s, id, key)
  {
  }

  lemma SlotFloor(w: World, id: nat)
    requires Safe(w) && id < 2 && Validates(w.dev.slots[id], id, w.hostBlob)
    ensures Shape(w.dev) && w.floor <= RecoversTo(w.dev.slots[id].body) < WORD
    ensures Operational(StateOf(w.dev.slots[id].body))
  {
    ValidatesTag(w.dev.slots[id], id, w.hostBlob, w.floor);
  }

  lemma HealthyBootRecovers(d: Sec, id: nat, key: KeyId, tx: nat)
    requires Shape(d) && id < 2 && d.wrapped == key != NO_KEY && tx < WORD
    requires Validates(d.slots[id], id, key)
    requires Validates(d.slots[1 - id], 1 - id, key) ==> TxOf(d.slots[1 - id].body) < TxOf(d.slots[id].body)
    requires Operational(StateOf(d.slots[id].body))
    requires TxOf(d.slots[id].body) < tx
    ensures var d' := Boot(d, key, HealthyBoot(tx)).0;
            && d'.state == (if StateOf(d.slots[id].body) == RESERVED then IDLE else StateOf(d.slots[id].body))
            && d'.ctr == RecoversTo(d.slots[id].body) % WORD
            && d'.keyLoaded && d'.hwSeed == key && d'.kState == key && Shape(d') && d'.lastTx <= tx
            && Boot(d, key, HealthyBoot(tx)).1
  {
    hide Validates, TxOf, Recover, StateOf;
    var d1 := BootKeys(d, key, HealthyBoot(tx)).0;
    assert d1.slots == d.slots;
    var v0, v1 := Validates(d.slots[0], 0, key), Validates(d.slots[1], 1, key);
    assert Choose(d1, v0, v1) == Chosen(id);
    HealthyRecover(d1, id, v0, v1, tx);
  }

  lemma HealthyRecover(d: Sec, id: nat, v0: bool, v1: bool, tx: nat)
    requires Shape(d) && id < 2 && tx < WORD && TxOf(d.slots[id].body) < tx
    requires Operational(StateOf(d.slots[id].body))
    ensures var d' := Recover(d, id, v0, v1, Works(tx)).0;
            && d'.state == (if StateOf(d.slots[id].body) == RESERVED then IDLE else StateOf(d.slots[id].body))
            && d'.ctr == RecoversTo(d.slots[id].body) % WORD
            && d'.keyLoaded == d.keyLoaded && d'.hwSeed == d.hwSeed && d'.kState == d.kState && Shape(d') && d'.lastTx <= tx
            && Recover(d, id, v0, v1, Works(tx)).1
  {
    hide EncodeBody, StateOf;
  }

  // ---- transaction numbers ----

  ghost predicate TagShape(t: Tag) {
    t.Mac? ==> |t.message| == 49
  }

  function TagTx(t: Tag): nat
    requires t.Mac? && |t.message| == 49
  {
    TxOf(t.message[..48])
  }

  /** Two records of one key never carry the same transaction number. */
  ghost predicate TxDistinct(d: Sec) {
    && Shape(d)
    && TagShape(d.slots[0].tag) && TagShape(d.slots[1].tag)
    && (d.slots[0].tag.Mac? && d.slots[1].tag.Mac? && d.slots[0].tag.key == d.slots[1].tag.key ==>
          TagTx(d.slots[0].tag) != TagTx(d.slots[1].tag))
  }

  /** sec_last_tx is the number of the active record; without an active record there is none at all. */
  ghost predicate ReadyToCommit(d: Sec) {
    && TxDistinct(d)
    && (d.slots[d.active].tag.Mac? ==> d.lastTx == TagTx(d.slots[d.active].tag))
    && (!d.slots[d.active].tag.Mac? ==> !d.slots[1 - d.active].tag.Mac?)
  }

  /** The active record is the newest of its key. */
  ghost predicate ActiveNewest(d: Sec) {
    && Shape(d) && TagShape(d.slots[0].tag) && TagShape(d.slots[1].tag)
    && Tagged(d.slots[d.active], d.active) && d.lastTx == TxOf(d.slots[d.active].body)
    && (d.slots[1 - d.active].tag.Mac? && d.slots[1 - d.active].tag.key == d.slots[d.active].tag.key ==>
          TagTx(d.slots[1 - d.active].tag) < d.lastTx)
  }

  lemma RecordTx(key: KeyId, id: nat, state: nat, ctr: nat, tx: nat)
    requires id < 2 && state < 0x1_0000 && ctr < WORD && tx < WORD
    ensures var r := Record(key, id, state, ctr, tx);
            && SlotShape(r) && r.tag.Mac? && r.tag.key == key && |r.tag.message| == 49 && TagTx(r.tag) == tx
            && Tagged(r, id) && TxOf(r.body) == tx && StateOf(r.body) == state && CtrOf(r.body) == ctr
  {
    hide EncodeBody;
    BodyRoundTrip(state, ctr, tx);
    assert (EncodeBody(state, ctr, tx) + [id])[..48] == EncodeBody(state, ctr, tx);
  }

  /** state_commit: success strictly raises sec_last_tx and leaves the new record the newest;
      failure keeps the counter, the state and the active record. */
  lemma CommitOrdered(d: Sec, state: nat, ctr: nat, hw: CommitHw)
    requires ReadyToCommit(d) && HwShape(hw) && state < 0x1_0000 && ctr < WORD
    ensures var (d', rc) := Commit(d, state, ctr, hw);
            && TxDistinct(d') && (rc != PowerLost ==> ReadyToCommit(d'))
            && (rc == Committed ==> d'.lastTx > d.lastTx && ActiveNewest(d') && d'.active == 1 - d.active
                                    && d'.slots[d'.active] == Record(d.kState, d'.active, state, ctr, d'.lastTx))
            && (rc != Committed ==> d'.lastTx == d.lastTx && d'.active == d.active && d'.ctr == d.ctr && d'.state == d.state
                                    && d'.slots[d.active] == d.slots[d.active])
  {
    hide Record, TagTx, TxOf, StateOf, CtrOf, MagicOf, TornSlot, Tagged;
    var id := 1 - d.active;
    match hw {
      case Works(tx) =>
        RecordTx(d.kState, id, state, ctr, tx);
      case CutWriting(tx, k) =>
        var written := Record(d.kState, id, state, ctr, tx);
        RecordTx(d.kState, id, state, ctr, tx);
        TornTagOneOf(d.slots[id], written, k);
        if tx > d.lastTx {
          InactiveReplaced(d, TornSlot(d.slots[id], written, k), written.tag);
        }
      case ReadBackFails(tx) =>
        RecordTx(d.kState, id, state, ctr, tx);
        if tx > d.lastTx {
          InactiveReplaced(d, Record(d.kState, id, state, ctr, tx).(tag := Garbled), Garbled);
        }
      case _ =>
    }
  }

  /** Another slot in the inactive place: its tag is the old one there, none, or a new one with a larger number. */
  lemma InactiveReplaced(d: Sec, slot: Slot, added: Tag)
    requires ReadyToCommit(d) && SlotShape(slot) && TagShape(added)
    requires slot.tag in {d.slots[1 - d.active].tag, added, Garbled}
    requires added.Mac? ==> TagTx(added) > d.lastTx
    ensures TxDistinct(d.(slots := d.slots[1 - d.active := slot]))
    ensures !added.Mac? ==> ReadyToCommit(d.(slots := d.slots[1 - d.active := slot]))
  {
    hide TagTx;
  }

  lemma TornTagOneOf(prior: Slot, written: Slot, k: nat)
    requires SlotShape(prior) && SlotShape(written) && k <= 64
    ensures SlotShape(TornSlot(prior, written, k)) && TornSlot(prior, written, k).tag in {prior.tag, written.tag, Garbled}
  {
  }

  /** The "same transaction, different content" branch of sec_boot is never taken. */
  lemma NoConflict(d: Sec, key: KeyId)
    requires TxDistinct(d)
    ensures Choose(d, Validates(d.slots[0], 0, key), Validates(d.slots[1], 1, key)) != Conflict
  {
    hide TxOf, MagicOf;
    if Validates(d.slots[0], 0, key) && Validates(d.slots[1], 1, key) {
      assert (d.slots[0].body + [0])[..48] == d.slots[0].body;
      assert (d.slots[1].body + [1])[..48] == d.slots[1].body;
    }
  }

  /** Power lost at any byte of the slot write: the next start picks the record that was active before,
      or, when all 64 bytes were written, the new one. */
  lemma CutIsAtomic(d: Sec, state: nat, ctr: nat, tx: nat, k: nat)
    requires ActiveNewest(d) && d.slots[d.active].tag.key == d.kState
    requires state < 0x1_0000 && ctr < WORD && d.lastTx < tx < WORD && k <= 64
    ensures var d' := PowerOn(Commit(d, state, ctr, CutWriting(tx, k)).0);
            var id := if k == 64 then 1 - d.active else d.active;
            && Shape(d')
            && Choose(d', Validates(d'.slots[0], 0, d.kState), Validates(d'.slots[1], 1, d.kState)) == Chosen(id)
            && d'.slots[id] == if k == 64 then Record(d.kState, id, state, ctr, tx) else d.slots[d.active]
  {
    hide Record, TxOf, StateOf, CtrOf, MagicOf, TornSlot;
    var id := 1 - d.active;
    var written := Record(d.kState, id, state, ctr, tx);
    RecordTx(d.kState, id, state, ctr, tx);
    CutSlot(d.slots[id], written, id, d.kState, k, d.lastTx);
  }

  /** What a cut write leaves in the inactive slot: the new record, nothing valid, or an older record of the key. */
  lemma CutSlot(prior: Slot, written: Slot, id: nat, key: KeyId, k: nat, lastTx: nat)
    requires SlotShape(prior) && SlotShape(written) && k <= 64 && id < 2 && TagShape(prior.tag) && TagShape(written.tag)
    requires Tagged(written, id) && written.tag.key == key && TagTx(written.tag) > lastTx
    requires prior.tag.Mac? && prior.tag.key == key ==> TagTx(prior.tag) < lastTx
    ensures var t := TornSlot(prior, written, k);
            && SlotShape(t)
            && (k == 64 ==> t == written)
            && (k < 64 && Validates(t, id, key) ==> TxOf(t.body) < lastTx)
  {
    hide TxOf, MagicOf;
    var t := TornSlot(prior, written, k);
    if k < 64 && Validates(t, id, key) {
      assert (t.body + [id])[..48] == t.body;
    }
  }

  // ---- transaction order over runs ----

  ghost predicate Ordered(w: World) {
    && TxDistinct(w.dev)
    && (!w.off && Operational(w.dev.state) ==> ReadyToCommit(w.dev))
  }

  lemma SignOrdered(d: Sec, maxCtr: nat, hw: SignHw)
    requires Shape(d) && TxDistinct(d) && (Operational(d.state) ==> ReadyToCommit(d)) && maxCtr < WORD
    requires HwShape(hw.reserve) && HwShape(hw.reserveBurn) && HwShape(hw.commit) && HwShape(hw.burn)
    ensures var (d', rc) := Sign(d, maxCtr, hw);
            TxDistinct(d') && (rc != SignCut && Operational(d'.state) ==> ReadyToCommit(d'))
  {
    hide Commit, TxDistinct, ReadyToCommit, ActiveNewest, Record;
    if d.state == IDLE {
      ReadyShape(d);
      if d.keyLoaded && d.ctr < maxCtr {
        CommitOrdered(d, RESERVED, d.ctr, hw.reserve);
        var (d1, rc1) := Commit(d, RESERVED, d.ctr, hw.reserve);
        if rc1 == Refused {
          ReadyShape(d1);
          CommitOrdered(d1, IDLE, d.ctr + 1, hw.reserveBurn);
        } else if rc1 == Committed {
          ReadyShape(d1);
          CommitOrdered(d1, IDLE, d.ctr + 1, hw.burn);
          CommitOrdered(d1, IDLE, d.ctr + 1, hw.commit);
          var (d2, rc2) := Commit(d1, IDLE, d.ctr + 1, hw.commit);
          if rc2 == Refused {
            CommitOrdered(d2, IDLE, d.ctr + 1, hw.burn);
          }
        }
      }
    }
    OnlyState(d, d.(state := EXHAUSTED));
  }

  lemma ReadyShape(d: Sec)
    requires ReadyToCommit(d)
    ensures TxDistinct(d) && Shape(d)
  {
  }

  lemma OnlyState(d: Sec, d': Sec)
    requires d'.slots == d.slots && d'.active == d.active && d'.lastTx == d.lastTx && d'.slotValid == d.slotValid
    requires d'.ctr == d.ctr || d'.ctr < WORD
    ensures TxDistinct(d) ==> TxDistinct(d')
    ensures ReadyToCommit(d) ==> ReadyToCommit(d')
  {
  }

  lemma BootOrdered(d: Sec, key: KeyId, hw: BootHw)
    requires TxDistinct(d) && HwShape(hw.burn)
    ensures var (d', on) := Boot(d, key, hw);
            TxDistinct(d') && (on && Operational(d'.state) ==> ReadyToCommit(d'))
  {
    hide Recover, Validates, TagTx, TxOf, BlankSlot;
    var (d1, ready) := BootKeys(d, key, hw);
    if ready {
      var v0 := hw.hmac0 && Validates(d1.slots[0], 0, key);
      var v1 := hw.hmac1 && Validates(d1.slots[1], 1, key);
      match Choose(d1, v0, v1)
      case Chosen(id) =>
        RecoverOrdered(d1, id, key, v0, v1, hw.burn);
      case NoSlot =>
        BlankNotMac();
      case Conflict =>
    }
  }

  lemma BlankNotMac()
    ensures !BlankSlot().tag.Mac?
  {
  }

  lemma RecoverOrdered(d: Sec, id: nat, key: KeyId, v0: bool, v1: bool, burn: CommitHw)
    requires TxDistinct(d) && id < 2 && HwShape(burn) && Validates(d.slots[id], id, key)
    ensures var (d', on) := Recover(d, id, v0, v1, burn);
            TxDistinct(d') && (on && Operational(d'.state) ==> ReadyToCommit(d'))
  {
    hide Recover, Burn, TxOf, StateOf, ReadyToCommit, TxDistinct, Validates;
    DistinctShape(d);
    var body := d.slots[id].body;
    var d1 := d.(active := id, slotValid := [v0, v1], lastTx := TxOf(body));
    ChosenReady(d, id, key, d1);
    RecoverCases(d, id, v0, v1, burn);
    if StateOf(body) == RESERVED {
      BurnOrdered(d1, CtrOf(body), burn);
    } else {
      OnlyState(d1, Recover(d, id, v0, v1, burn).0);
    }
  }

  lemma RecoverCases(d: Sec, id: nat, v0: bool, v1: bool, burn: CommitHw)
    requires Shape(d) && id < 2 && HwShape(burn)
    ensures var body := d.slots[id].body;
            var d1 := d.(active := id, slotValid := [v0, v1], lastTx := TxOf(body));
            var (d', on) := Recover(d, id, v0, v1, burn);
            if StateOf(body) == RESERVED then (d', on) == Burn(d1, CtrOf(body), burn)
            else d'.slots == d.slots && d'.active == id && d'.lastTx == d1.lastTx && d'.slotValid == d1.slotValid && d'.ctr < WORD
  {
    hide Burn, TxOf, StateOf;
  }

  lemma DistinctShape(d: Sec)
    requires TxDistinct(d)
    ensures Shape(d)
  {
  }

  lemma ChosenReady(d: Sec, id: nat, key: KeyId, d1: Sec)
    requires TxDistinct(d) && id < 2 && Validates(d.slots[id], id, key)
    requires d1.slots == d.slots && d1.active == id && d1.lastTx == TxOf(d.slots[id].body) && |d1.slotValid| == 2 && d1.ctr == d.ctr
    ensures Shape(d) && ReadyToCommit(d1) && TxDistinct(d1)
  {
    hide TxOf, MagicOf;
    var body := d.slots[id].body;
    assert (body + [id])[..48] == body;
  }

  lemma BurnOrdered(d: Sec, recCtr: nat, burn: CommitHw)
    requires ReadyToCommit(d) && HwShape(burn)
    ensures Shape(d)
    ensures var (d', on) := Burn(d, recCtr, burn);
            TxDistinct(d') && (on && Operational(d'.state) ==> ReadyToCommit(d'))
  {
    hide Commit, TxDistinct, ReadyToCommit, ActiveNewest, Record;
    ReadyShape(d);
    CommitOrdered(d, IDLE, (recCtr + 1) % WORD, burn);
    var (d1, rc) := Commit(d, IDLE, (recCtr + 1) % WORD, burn);
    OnlyState(d1, Lock(d1));
    OnlyState(d1, d1.(factoryLocked := true));
  }

  lemma UartOrdered(d: Sec, param: nat, ctr: nat, hw: CommitHw)
    requires TxDistinct(d) && (Operational(d.state) ==> ReadyToCommit(d)) && ctr < WORD && HwShape(hw)
    ensures var (d', rc) := UartCommit(d, param, ctr, hw);
            TxDistinct(d') && (rc != UartCut && Operational(d'.state) ==> ReadyToCommit(d'))
  {
    hide Commit, TxDistinct, ReadyToCommit, ActiveNewest, Record;
    if Operational(d.state) {
      ReadyShape(d);
      CommitOrdered(d, param % 0x1_0000, ctr, hw);
    }
  }

  lemma StepOrdered(w: World, c: Command)
    requires Ordered(w) && CommandShape(c)
    ensures Shape(w.dev) && Ordered(Step(w, c))
  {
    hide TxDistinct, ReadyToCommit, Boot, Sign, UartCommit, TagTx;
    OrderedShape(w);
    match c
    case PowerCycle(l0, l1) => LoseOrdered(w.dev, l0, l1);
    case WrapLoad => OnlyState(w.dev, w.dev.(wrapped := w.hostBlob));
    case BootCmd(key, hw) => BootOrdered(w.dev, key, hw);
    case SignCmd(m, hw) => if !w.off { SignOrdered(w.dev, m, hw); }
    case CommitCmd(param, ctr, hw) => if !w.off { UartOrdered(w.dev, param, ctr, hw); }
    case KeygenCmd(hw) => if !w.off { KeygenOrdered(w.dev, w.nextKey, hw); }
  }

  lemma OrderedShape(w: World)
    requires Ordered(w)
    ensures TxDistinct(w.dev) && Shape(w.dev)
  {
  }

  lemma LoseOrdered(d: Sec, l0: bool, l1: bool)
    requires TxDistinct(d)
    ensures TxDistinct(PowerOn(d.(slots := [Lose(d.slots[0], l0), Lose(d.slots[1], l1)])))
  {
  }

  lemma KeygenOrdered(d: Sec, key: KeyId, hw: KeygenHw)
    requires TxDistinct(d) && (Operational(d.state) ==> ReadyToCommit(d))
    ensures var (d', ok) := KeygenNew(d, key, hw);
            TxDistinct(d') && (Operational(d'.state) ==> ReadyToCommit(d'))
  {
    hide TagTx, BlankSlot;
    BlankNotMac();
    BlankSafe();
  }

  // ---- the reservation that wraps ----

  /** UART COMMIT(RESERVED, c) succeeds, power is cycled, the host reloads the blob, and the boot is healthy. */
  function ReserveAndRestart(c: nat, tx1: nat, key: KeyId, tx2: nat): (cs: seq<Command>)
    ensures |cs| == 4
  {
    [CommitCmd(RESERVED, c, Works(tx1)), PowerCycle(false, false), WrapLoad, BootCmd(key, HealthyBoot(tx2))]
  }

  /** Commands one after the other, the wrapping reservation included. */
  ghost predicate IsTrace(ws: seq<World>, cs: seq<Command>) {
    && |ws| == |cs| + 1
    && forall i, next :: 0 <= i < |cs| && next == i + 1 ==> Makes(ws[i], cs[i], ws[next])
  }

  ghost predicate Makes(w: World, c: Command, w': World) {
    Shape(w.dev) && CommandShape(c) && w' == Step(w, c)
  }

  /** The device state those four commands lead to. */
  ghost function AfterUartReserve(d: Sec, c: nat, tx1: nat, key: KeyId, tx2: nat): Sec
    requires Shape(d) && c < WORD && tx1 < WORD && tx2 < WORD
  {
    var d1 := UartCommit(d, RESERVED, c, Works(tx1)).0;
    Boot(PowerOn(d1).(wrapped := key), key, HealthyBoot(tx2)).0
  }

  /** sec_boot adds one to the reserved counter in 32 bits. Recovery from a reservation made over the UART
      stays above the released indices if and only if the reserved counter is not 0xffffffff. */
  lemma UartReserveRecovers(w: World, c: nat, tx1: nat, tx2: nat)
    requires Safe(w) && Ordered(w) && !w.off && w.dev.state == IDLE
    requires w.hostBlob != NO_KEY && w.dev.kState == w.hostBlob && w.floor > 0
    requires w.dev.ctr <= c < WORD && w.dev.lastTx < tx1 < tx2 < WORD
    ensures var d := AfterUartReserve(w.dev, c, tx1, w.hostBlob, tx2);
            && d.state == IDLE && d.ctr == (c + 1) % WORD
            && d.keyLoaded && d.hwSeed == w.hostBlob && d.lastTx <= tx2 && Shape(d)
            && (w.floor <= d.ctr <==> c != WORD - 1)
    ensures var d1 := UartCommit(w.dev, RESERVED, c, Works(tx1)).0;
            && UartCommit(w.dev, RESERVED, c, Works(tx1)).1 == UartOk
            && Boot(PowerOn(d1).(wrapped := w.hostBlob), w.hostBlob, HealthyBoot(tx2)).1
  {
    hide Boot, Record, StateOf, TxOf, CtrOf, MagicOf, StrictlyIncreasing, TagSafe, TagTx, EncodeBody;
    var d := w.dev;
    var id := 1 - d.active;
    var key := w.hostBlob;
    RecordTx(key, id, RESERVED, c, tx1);
    var d1 := PowerOn(UartCommit(d, RESERVED, c, Works(tx1)).0).(wrapped := key);
    assert d1.slots[id] == Record(key, id, RESERVED, c, tx1) && d1.slots[d.active] == d.slots[d.active];
    OldActiveTx(d, key);
    HealthyBootRecovers(d1, id, key, tx2);
  }

  lemma OldActiveTx(d: Sec, key: KeyId)
    requires ReadyToCommit(d)
    ensures Validates(d.slots[d.active], d.active, key) ==> TxOf(d.slots[d.active].body) == d.lastTx
  {
    hide MagicOf;
    if Validates(d.slots[d.active], d.active, key) {
      assert (d.slots[d.active].body + [d.active])[..48] == d.slots[d.active].body;
    }
  }

  /** The four commands as a trace. */
  lemma ReserveTrace(w: World, c: nat, tx1: nat, tx2: nat) returns (ws: seq<World>)
    requires Safe(w) && Ordered(w) && !w.off && w.dev.state == IDLE
    requires w.hostBlob != NO_KEY && w.dev.kState == w.hostBlob && w.floor > 0
    requires w.dev.ctr <= c < WORD && w.dev.lastTx < tx1 < tx2 < WORD
    ensures IsTrace(ws, ReserveAndRestart(c, tx1, w.hostBlob, tx2)) && ws[0] == w
    ensures ws[4] == w.(dev := AfterUartReserve(w.dev, c, tx1, w.hostBlob, tx2))
  {
    hide Boot, UartCommit, Safe, Ordered, AfterUartReserve;
    SafeShape(w);
    UartReserveRecovers(w, c, tx1, tx2);
    var d1 := UartCommit(w.dev, RESERVED, c, Works(tx1)).0;
    UartShape(w.dev, c, tx1);
    assert [Lose(d1.slots[0], false), Lose(d1.slots[1], false)] == d1.slots;
    var w1 := Step(w, CommitCmd(RESERVED, c, Works(tx1)));
    var w2 := Step(w1, PowerCycle(false, false));
    var w3 := Step(w2, WrapLoad);
    var w4 := Step(w3, BootCmd(w.hostBlob, HealthyBoot(tx2)));
    ws := [w, w1, w2, w3, w4];
    assert AfterUartReserve(w.dev, c, tx1, w.hostBlob, tx2) == Boot(w3.dev, w.hostBlob, HealthyBoot(tx2)).0 by {
      ReserveUnfolded(w.dev, c, tx1, w.hostBlob, tx2);
    }
  }

  lemma UartShape(d: Sec, c: nat, tx: nat)
    requires Shape(d) && c < WORD && tx < WORD
    ensures Shape(UartCommit(d, RESERVED, c, Works(tx)).0)
  {
  }

  lemma ReserveUnfolded(d: Sec, c: nat, tx1: nat, key: KeyId, tx2: nat)
    requires Shape(d) && c < WORD && tx1 < WORD && tx2 < WORD
    ensures var d1 := UartCommit(d, RESERVED, c, Works(tx1)).0;
            Shape(d1) && AfterUartReserve(d, c, tx1, key, tx2) == Boot(PowerOn(d1).(wrapped := key), key, HealthyBoot(tx2)).0
  {
    hide Boot;
  }

  /** A signature whose hardware works, with the two counter values after tx. */
  function GoodSign(tx: nat): SignHw {
    SignHw(Works(tx + 1), Cut, true, false, Works(tx + 2), Cut)
  }

  /** With the counter 0xffffffff the signature after the restart releases index 0. If that index was released
      under this key before, it is now in the log twice. */
  lemma WrappedReserveReleasesTwice(w: World, tx1: nat, tx2: nat, maxCtr: nat) returns (last: World)
    requires Shape(w.dev) && Safe(w) && Ordered(w) && !w.off && w.dev.state == IDLE
    requires w.hostBlob != NO_KEY && w.dev.kState == w.hostBlob && Release(w.hostBlob, 0) in w.log[w.epoch..]
    requires w.dev.lastTx < tx1 < tx2 && tx2 + 2 < WORD && 0 < maxCtr < WORD
    ensures Makes(w.(dev := AfterUartReserve(w.dev, WORD - 1, tx1, w.hostBlob, tx2)), SignCmd(maxCtr, GoodSign(tx2)), last)
    ensures last.log == w.log + [Release(w.hostBlob, 0)]
    ensures multiset(last.log)[Release(w.hostBlob, 0)] >= 2
  {
    hide AfterUartReserve, Sign, Safe, Ordered, UartCommit, Boot;
    var r := w.(dev := AfterUartReserve(w.dev, WORD - 1, tx1, w.hostBlob, tx2));
    PositiveFloor(w);
    UartReserveRecovers(w, WORD - 1, tx1, tx2);
    HealthySignReleases(r.dev, maxCtr, tx2);
    last := Step(r, SignCmd(maxCtr, GoodSign(tx2)));
  }

  lemma PositiveFloor(w: World)
    requires Safe(w) && Release(w.hostBlob, 0) in w.log[w.epoch..]
    ensures w.floor > 0
  {
    var i :| w.epoch <= i < |w.log| && w.log[i] == Release(w.hostBlob, 0);
  }

  lemma HealthySignReleases(d: Sec, maxCtr: nat, tx: nat)
    requires Shape(d) && d.state == IDLE && d.keyLoaded && d.hwSeed != NO_KEY && d.lastTx <= tx
    requires tx + 2 < WORD && d.ctr < maxCtr < WORD
    ensures Sign(d, maxCtr, GoodSign(tx)).1 == Released(d.ctr)
  {
    hide Record;
  }

  /** A reachable double release: rotate, sign, reserve 0xffffffff over the UART, restart, sign. Only the third
      command is outside the runs of NoIndexTwice. */
  lemma ReachableDoubleRelease(fused: bool) returns (ws: seq<World>, cs: seq<Command>)
    ensures |cs| == 7 && IsTrace(ws, cs) && ws[0] == FirstPowerOn(fused)
    ensures ws[7].log == [Release(1, 0), Release(1, 0)]
    ensures forall i :: 0 <= i < 7 && cs[i].CommitCmd? ==> i == 2 && WrappingReserve(cs[i].param, cs[i].ctr)
  {
    hide Makes, AfterUartReserve, WrappingReserve;
    var first, w := FirstRelease(fused);
    var mid := ReserveTrace(w, WORD - 1, 3, 4);
    var last := WrappedReserveReleasesTwice(w, 3, 4, 32);
    ws := first + mid[1..] + [last];
    cs := DoubleReleaseCommands();
    OnlyTheReserve();
    forall i, next | 0 <= i < 7 && next == i + 1
      ensures Makes(ws[i], cs[i], ws[next])
    {
      if 2 <= i < 6 {
        assert Makes(mid[i - 2], ReserveAndRestart(WORD - 1, 3, 1, 4)[i - 2], mid[i - 1]);
      }
    }
  }

  function DoubleReleaseCommands(): seq<Command> {
    FirstCommands() + ReserveAndRestart(WORD - 1, 3, 1, 4) + [SignCmd(32, GoodSign(4))]
  }

  lemma OnlyTheReserve()
    ensures var cs := DoubleReleaseCommands();
            |cs| == 7 && forall i :: 0 <= i < 7 && cs[i].CommitCmd? ==> i == 2 && WrappingReserve(cs[i].param, cs[i].ctr)
  {
  }

  function FirstCommands(): seq<Command> {
    [KeygenCmd(KeygenHw(true, true, true, true, true)), SignCmd(32, GoodSign(0))]
  }

  /** A rotation and one signature on a new device. */
  lemma FirstRelease(fused: bool) returns (ws: seq<World>, w: World)
    ensures |ws| == 3 && ws[0] == FirstPowerOn(fused) && ws[2] == w
    ensures Makes(ws[0], FirstCommands()[0], ws[1]) && Makes(ws[1], FirstCommands()[1], ws[2])
    ensures Safe(w) && Ordered(w) && OneReleased(w)
  {
    hide Safe, Ordered, Step, OneReleased, FirstPowerOn, Rotated;
    FirstSafe(fused);
    var w0 := FirstPowerOn(fused);
    SafeShape(w0);
    var w1 := Step(w0, FirstCommands()[0]);
    StepSafe(w0, FirstCommands()[0]);
    StepOrdered(w0, FirstCommands()[0]);
    FirstRotation(fused);
    SafeShape(w1);
    w := Step(w1, FirstCommands()[1]);
    StepSafe(w1, FirstCommands()[1]);
    StepOrdered(w1, FirstCommands()[1]);
    FirstSignature(w1);
    ws := [w0, w1, w];
  }

  ghost predicate Rotated(w: World) {
    && !w.off && w.dev.state == IDLE && w.hostBlob == 1 == w.dev.kState == w.dev.hwSeed && w.dev.keyLoaded
    && w.floor == 0 == w.dev.ctr && w.dev.lastTx == 0 == w.dev.active && w.log == [] && w.epoch == 0
  }

  ghost predicate OneReleased(w: World) {
    && !w.off && w.dev.state == IDLE && w.hostBlob == 1 == w.dev.kState
    && w.floor == 1 == w.dev.ctr && w.dev.lastTx == 2 && w.log == [Release(1, 0)] && w.epoch == 0
  }

  lemma FirstRotation(fused: bool)
    ensures Shape(FirstPowerOn(fused).dev) && Rotated(Step(FirstPowerOn(fused), FirstCommands()[0]))
  {
    hide BlankSlot;
    BlankSafe();
  }

  lemma FirstSignature(w: World)
    requires Shape(w.dev) && Rotated(w)
    ensures OneReleased(Step(w, FirstCommands()[1]))
  {
    hide Record;
    RecordNotBlank(1, 1, RESERVED, 0, 1);
  }
}
