/** The signing-state domain of fw/lms_sec_state.c (deploy build): two authenticated record slots,
    one counter, and the reserve - sign - commit transaction. The functions here are the
    specification; SecDevice.dfy holds the stateful firmware proved against them. */
module SecState {
  import opened Words

  /** A key identity: public-key ID and seed together. 0 is an empty hardware key slot. */
  type KeyId = nat

  const NO_KEY: KeyId := 0
  const WORD: nat := 0x1_0000_0000

  const ERROR_LOCKED := 0
  const IDLE := 1
  const RESERVED := 2
  const KEYGEN_PENDING := 3
  const EXHAUSTED := 4
  const BOOTING := 5

  // ---- STATE_REC: magic(4) state(2) ctr(4) txid(4) zero(34) | tag(16) ----

  const MAGIC: nat := 0x4c4d5353

  /** Ideal MAC: equal tags mean equal key and equal message; a half-written tag equals none. */
  datatype Tag = Zero | Mac(key: KeyId, message: Bytes) | Garbled

  datatype Slot = Slot(body: Bytes, tag: Tag)

  function BlankSlot(): Slot {
    Slot(Fill(48, 0), Zero)
  }

  /** encode_body */
  function EncodeBody(state: nat, ctr: nat, tx: nat): (b: Bytes)
    ensures |b| == 48
  {
    StoreU32(MAGIC) + StoreU16(state) + StoreU32(ctr) + StoreU32(tx) + Fill(34, 0)
  }

  function MagicOf(body: Bytes): nat
    requires |body| == 48
  {
    LoadU32(body)
  }

  function StateOf(body: Bytes): nat
    requires |body| == 48
  {
    LoadU16(body[4..])
  }

  function CtrOf(body: Bytes): nat
    requires |body| == 48
  {
    LoadU32(body[6..])
  }

  function TxOf(body: Bytes): nat
    requires |body| == 48
  {
    LoadU32(body[10..])
  }

  lemma BodyRoundTrip(state: nat, ctr: nat, tx: nat)
    requires state < 0x1_0000 && ctr < WORD && tx < WORD
    ensures var b := EncodeBody(state, ctr, tx);
            MagicOf(b) == MAGIC && StateOf(b) == state && CtrOf(b) == ctr && TxOf(b) == tx
  {
    hide Fill, StoreU32, StoreU16, LoadU32, LoadU16;
    var b := EncodeBody(state, ctr, tx);
    U32RoundTrip(MAGIC);
    U16RoundTrip(state);
    U32RoundTrip(ctr);
    U32RoundTrip(tx);
    assert b[..4] == StoreU32(MAGIC);
    assert b[4..][..2] == StoreU16(state);
    assert b[6..][..4] == StoreU32(ctr);
    assert b[10..][..4] == StoreU32(tx);
    LoadFront(b, StoreU32(MAGIC));
    LoadFront16(b[4..], StoreU16(state));
    LoadFront(b[6..], StoreU32(ctr));
    LoadFront(b[10..], StoreU32(tx));
  }

  /** The 48 bytes of a record: "LMSS", then state, counter and transaction number at bytes 4, 6 and 10, zeros behind. */
  lemma BodyLayout(state: nat, ctr: nat, tx: nat)
    requires state < 0x1_0000 && ctr < WORD && tx < WORD
    ensures var b := EncodeBody(state, ctr, tx);
            && b[..4] == [0x4c, 0x4d, 0x53, 0x53] && LoadU16(b[4..6]) == state
            && LoadU32(b[6..10]) == ctr && LoadU32(b[10..14]) == tx && b[14..] == Fill(34, 0)
  {
    hide Fill, StoreU16, LoadU32, LoadU16;
    var b := EncodeBody(state, ctr, tx);
    U16RoundTrip(state);
    U32RoundTrip(ctr);
    U32RoundTrip(tx);
    assert b[..4] == StoreU32(MAGIC) && b[4..6] == StoreU16(state);
    assert b[6..10] == StoreU32(ctr) && b[10..14] == StoreU32(tx) && b[14..] == Fill(34, 0);
  }

  /** The record written to slot `id` under K_STATE of `key`; the slot number is part of the MACed message. */
  function Record(key: KeyId, id: nat, state: nat, ctr: nat, tx: nat): Slot
    requires id < 2
  {
    var body := EncodeBody(state, ctr, tx);
    Slot(body, Mac(key, body + [id]))
  }

  ghost predicate SlotShape(s: Slot) {
    |s.body| == 48
  }

  /** rec_valid, when the HMAC engine works. */
  predicate Validates(s: Slot, id: nat, key: KeyId)
    requires SlotShape(s) && id < 2
  {
    MagicOf(s.body) == MAGIC && s.tag == Mac(key, s.body + [id])
  }

  /** A record validates in the slot it was written to and under the key it was written with, nowhere else. */
  lemma RecordBound(key: KeyId, id: nat, state: nat, ctr: nat, tx: nat, other: KeyId, place: nat)
    requires id < 2 && place < 2 && state < 0x1_0000 && ctr < WORD && tx < WORD
    ensures Validates(Record(key, id, state, ctr, tx), place, other) <==> place == id && other == key
  {
    hide EncodeBody;
    BodyRoundTrip(state, ctr, tx);
    var body := EncodeBody(state, ctr, tx);
    assert (body + [id])[48] == id as byte && (body + [place])[48] == place as byte;
  }

  /** The slot validates for some key. */
  predicate Tagged(s: Slot, id: nat)
    requires SlotShape(s) && id < 2
  {
    s.tag.Mac? && Validates(s, id, s.tag.key)
  }

  /** A slot write cut after k of the 64 bytes: new bytes in front, old bytes behind. */
  function TornSlot(prior: Slot, written: Slot, k: nat): Slot
    requires SlotShape(prior) && SlotShape(written) && k <= 64
  {
    Slot(if k >= 48 then written.body else written.body[..k] + prior.body[k..],
         if k <= 48 then prior.tag else if k == 64 then written.tag else Garbled)
  }

  /** A torn write never makes a record nobody authenticated: what validates is the new record, or the one
      the old tag was made for. */
  lemma TornValidates(prior: Slot, written: Slot, k: nat, id: nat)
    requires SlotShape(prior) && SlotShape(written) && k <= 64 && id < 2
    ensures SlotShape(TornSlot(prior, written, k))
    ensures var t := TornSlot(prior, written, k);
            Tagged(t, id) ==> t == written || (t.tag == prior.tag && prior.tag == Mac(prior.tag.key, t.body + [id]))
    ensures Tagged(prior, id) ==> var t := TornSlot(prior, written, k); Tagged(t, id) ==> t in {prior, written}
  {
    var t := TornSlot(prior, written, k);
    if Tagged(prior, id) && Tagged(t, id) && t.tag == prior.tag {
      assert (prior.body + [id])[..48] == prior.body;
      assert (t.body + [id])[..48] == t.body;
    }
  }

  // ---- the device ----

  /** The static variables of the module, and the three hardware registers behind MMIO it depends on. */
  datatype Sec = Sec(
    slots: seq<Slot>,        // sec_slots
    slotValid: seq<bool>,    // sec_slot_valid
    active: nat,             // sec_active_slot
    state: nat,              // sec_state
    ctr: nat,                // sec_ctr
    lastTx: nat,             // sec_last_tx
    factoryLocked: bool,     // sec_factory_locked
    keyLoaded: bool,         // sec_key_loaded
    keygenPending: bool,     // sec_keygen_pending
    wrapped: KeyId,          // sec_wrapped_blob: whose seed it holds, NO_KEY when not valid
    keyIndex: nat,           // sec_key_index
    fused: bool,             // CAP_STATE_COMMIT
    kState: KeyId,           // hardware K_STATE slot
    hwSeed: KeyId)           // hardware SEED slot

  ghost predicate Shape(d: Sec) {
    && |d.slots| == 2 && |d.slotValid| == 2 && d.active < 2
    && SlotShape(d.slots[0]) && SlotShape(d.slots[1])
    && d.ctr < WORD
  }

  /** sec_init at power-up. The record slots are the persistent domain: the host reloads what the device wrote. */
  function PowerOn(d: Sec): Sec {
    Sec(d.slots, [true, true], 0, BOOTING, 0, 0, false, false, false, NO_KEY, 0, d.fused, NO_KEY, NO_KEY)
  }

  // ---- state_commit ----

  /** What the hardware does to one commit; tx is the counter value it returns. */
  datatype CommitHw =
    | Works(tx: nat)
    | StepFails                    // counter step or fused transaction reports an error
    | TagFails(tx: nat)            // two-step path: HMAC error after the counter step
    | ReadBackFails(tx: nat)       // the stored tag reads back wrong
    | Cut                          // power lost before the slot write
    | CutWriting(tx: nat, k: nat)  // power lost after k bytes of the slot write

  ghost predicate HwShape(hw: CommitHw) {
    match hw
    case Works(tx) => tx < WORD
    case TagFails(tx) => tx < WORD
    case ReadBackFails(tx) => tx < WORD
    case CutWriting(tx, k) => tx < WORD && k <= 64
    case _ => true
  }

  datatype CommitRc = Committed | Refused | PowerLost

  /** One atomic commit: either the inactive slot holds the new record and the volatile state follows it,
      or nothing that recovery depends on has changed except, after a power cut, the torn inactive slot. */
  function Commit(d: Sec, state: nat, ctr: nat, hw: CommitHw): (r: (Sec, CommitRc))
    requires Shape(d) && HwShape(hw)
  {
    var id := 1 - d.active;
    match hw
    case StepFails => (d, Refused)
    case Cut => (d, PowerLost)
    case TagFails(tx) =>
      (if d.fused || tx <= d.lastTx then d else d.(slotValid := d.slotValid[id := false]), Refused)
    case Works(tx) =>
      if tx <= d.lastTx then (d, Refused)
      else (d.(slots := d.slots[id := Record(d.kState, id, state, ctr, tx)],
               slotValid := d.slotValid[id := true],
               active := id, lastTx := tx, state := state, ctr := ctr), Committed)
    case ReadBackFails(tx) =>
      if tx <= d.lastTx then (d, Refused)
      else (d.(slots := d.slots[id := Record(d.kState, id, state, ctr, tx).(tag := Garbled)],
               slotValid := d.slotValid[id := false]), Refused)
    case CutWriting(tx, k) =>
      if tx <= d.lastTx then (d, Refused)
      else (d.(slots := d.slots[id := TornSlot(d.slots[id], Record(d.kState, id, state, ctr, tx), k)]), PowerLost)
  }

  // ---- sec_sign ----

  datatype SignHw = SignHw(reserve: CommitHw, reserveBurn: CommitHw, signs: bool, cutSigning: bool,
                           commit: CommitHw, burn: CommitHw)

  datatype SignRc = Released(q: nat) | Locked | Busy | Exhausted | CommitError | PathError | SignCut

  /** What an error return turns into when its last commit lost power. */
  function OrCut(rc: CommitRc, err: SignRc): SignRc {
    if rc == PowerLost then SignCut else err
  }

  function Sign(d: Sec, maxCtr: nat, hw: SignHw): (r: (Sec, SignRc))
    requires Shape(d) && maxCtr < WORD
    requires HwShape(hw.reserve) && HwShape(hw.reserveBurn) && HwShape(hw.commit) && HwShape(hw.burn)
  {
    if d.state == ERROR_LOCKED then (d, Locked)
    else if d.state != IDLE then (d, Busy)
    else if !d.keyLoaded then (d, Locked)
    else if maxCtr == 0 || d.ctr >= maxCtr then (d.(state := EXHAUSTED), Exhausted)
    else
      var q := d.ctr;
      var (d1, rc1) := Commit(d, RESERVED, q, hw.reserve);
      if rc1 == PowerLost then (d1, SignCut)
      else if rc1 == Refused then
        var (d2, rc2) := Commit(d1, IDLE, q + 1, hw.reserveBurn);
        (d2, OrCut(rc2, CommitError))
      else if hw.cutSigning then (d1, SignCut)
      else if hw.signs && d1.hwSeed != NO_KEY then
        var (d2, rc2) := Commit(d1, IDLE, q + 1, hw.commit);
        if rc2 == Committed then (d2, Released(q))
        else if rc2 == PowerLost then (d2, SignCut)
        else
          var (d3, rc3) := Commit(d2, IDLE, q + 1, hw.burn);
          (d3, OrCut(rc3, CommitError))
      else
        var (d2, rc2) := Commit(d1, IDLE, q + 1, hw.burn);
        (d2, OrCut(rc2, PathError))
  }

  // ---- the UART COMMIT command ----

  /** sec_uart_commit_allowed */
  predicate UartAllowed(d: Sec, newState: nat, ctr: nat) {
    if d.state == IDLE then newState in {RESERVED, KEYGEN_PENDING, IDLE, EXHAUSTED} && ctr >= d.ctr
    else if d.state == RESERVED then newState == IDLE && ctr > d.ctr
    else if d.state == KEYGEN_PENDING then newState == IDLE && ctr >= d.ctr
    else false
  }

  datatype UartRc = UartOk | UartLocked | UartBusy | UartRefused | UartCut

  function UartCommit(d: Sec, param: nat, ctr: nat, hw: CommitHw): (r: (Sec, UartRc))
    requires Shape(d) && ctr < WORD && HwShape(hw)
  {
    var newState := param % 0x1_0000;
    if d.state == ERROR_LOCKED then (d, UartLocked)
    else if d.state == BOOTING then (d, UartBusy)
    else if ctr < d.ctr || !UartAllowed(d, newState, ctr) then (d, UartRefused)
    else
      var (d1, rc) := Commit(d, newState, ctr, hw);
      (d1, match rc case Committed => UartOk case Refused => UartRefused case PowerLost => UartCut)
  }

  // ---- sec_boot ----

  datatype BootHw = BootHw(loads: bool, kStateLoaded: bool, unwraps: bool, hmac0: bool, hmac1: bool, burn: CommitHw)

  /** Which slot recovery starts from: the later of the records that validate; Conflict when two of one tx differ. */
  datatype Choice = NoSlot | Chosen(id: nat) | Conflict

  function Choose(d: Sec, v0: bool, v1: bool): Choice
    requires Shape(d)
  {
    if v0 && v1 then
      if TxOf(d.slots[0].body) == TxOf(d.slots[1].body) then
        if d.slots[0].body != d.slots[1].body then Conflict else Chosen(0)
      else Chosen(if TxOf(d.slots[0].body) > TxOf(d.slots[1].body) then 0 else 1)
    else if v0 then Chosen(0)
    else if v1 then Chosen(1)
    else NoSlot
  }

  function Lock(d: Sec): Sec {
    d.(state := ERROR_LOCKED)
  }

  /** slots_all_zero */
  predicate AllZero(d: Sec)
    requires Shape(d)
  {
    d.slots[0] == BlankSlot() && d.slots[1] == BlankSlot()
  }

  /** Keys and seed: everything sec_boot does before it looks at the slots. None of it touches the record slots. */
  function BootKeys(d: Sec, key: KeyId, hw: BootHw): (r: (Sec, bool))
  {
    var d0 := d.(state := BOOTING);
    if !hw.loads then (Lock(if hw.kStateLoaded then d0.(kState := key) else d0), false)
    else
      var d1 := d0.(kState := key, keyLoaded := true);
      if d1.wrapped == NO_KEY then (d1, true)
      else
        var d2 := d1.(factoryLocked := true);
        if hw.unwraps && d2.wrapped == key then (d2.(hwSeed := key), true) else (Lock(d2), false)
  }

  /** The conservative burn of a reserved index: one commit, counted in 32 bits. */
  function Burn(d: Sec, recCtr: nat, burn: CommitHw): (r: (Sec, bool))
    requires Shape(d) && HwShape(burn)
  {
    var (d1, rc) := Commit(d, IDLE, (recCtr + 1) % WORD, burn);
    if rc == Committed then (d1.(factoryLocked := true), true)
    else if rc == PowerLost then (d1, false)
    else (Lock(d1), true)
  }

  /** Recovery from the chosen slot. */
  function Recover(d: Sec, id: nat, v0: bool, v1: bool, burn: CommitHw): (r: (Sec, bool))
    requires Shape(d) && id < 2 && HwShape(burn)
  {
    var body := d.slots[id].body;
    var d1 := d.(active := id, slotValid := [v0, v1], lastTx := TxOf(body));
    var recState, recCtr := StateOf(body), CtrOf(body);
    if recState == RESERVED then Burn(d1, recCtr, burn)
    else if recState == KEYGEN_PENDING then
      (d1.(keygenPending := true, state := KEYGEN_PENDING, ctr := recCtr, factoryLocked := true), true)
    else if recState == IDLE || recState == EXHAUSTED then
      (d1.(state := recState, ctr := recCtr, factoryLocked := true), true)
    else (Lock(d1), true)
  }

  /** No record is valid: a fresh pair of slots starts at 0, anything else locks a provisioned device. */
  function WithoutRecord(d: Sec): Sec
    requires Shape(d)
  {
    if !d.factoryLocked then d
    else if AllZero(d) then d.(state := IDLE, ctr := 0)
    else Lock(d)
  }

  /** The boot once both records have been looked at. */
  function BootFromSlots(d: Sec, v0: bool, v1: bool, burn: CommitHw): (r: (Sec, bool))
    requires Shape(d) && HwShape(burn)
  {
    match Choose(d, v0, v1)
    case Conflict => (Lock(d), true)
    case Chosen(id) => Recover(d, id, v0, v1, burn)
    case NoSlot => (WithoutRecord(d), true)
  }

  /** sec_boot; the flag is false when power was lost inside. */
  function Boot(d: Sec, key: KeyId, hw: BootHw): (r: (Sec, bool))
    requires Shape(d) && HwShape(hw.burn)
  {
    var (d1, ready) := BootKeys(d, key, hw);
    if !ready then (d1, true)
    else BootFromSlots(d1, hw.hmac0 && Validates(d1.slots[0], 0, key), hw.hmac1 && Validates(d1.slots[1], 1, key), hw.burn)
  }

  // ---- sec_keygen_new ----

  datatype KeygenHw = KeygenHw(healthy: bool, seedLoads: bool, loads: bool, kStateLoaded: bool, wraps: bool)

  /** sec_keygen_new with the fresh identity drawn from the TRNG. */
  function KeygenNew(d: Sec, drawn: KeyId, hw: KeygenHw): (r: (Sec, bool))
  {
    if !hw.healthy || !hw.seedLoads then (d, false)
    else
      var d1 := d.(hwSeed := drawn);
      if !hw.loads then (if hw.kStateLoaded then d1.(kState := drawn) else d1, false)
      else
        var d2 := d1.(kState := drawn);
        if !hw.wraps then (d2, false)
        else (d2.(wrapped := drawn, slots := [BlankSlot(), BlankSlot()], slotValid := [false, false],
                  active := 0, state := IDLE, ctr := 0, lastTx := 0,
                  keyLoaded := true, factoryLocked := true, keygenPending := false,
                  keyIndex := d2.keyIndex + 1), true)
  }
}
