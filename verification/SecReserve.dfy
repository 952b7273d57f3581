/** Reservations over whole runs. An index that state_commit has recorded as RESERVED counts as used, released or not:
    a one-time signature of it may already exist. */
module SecReserve {
  import opened Words
  import opened SecState
  import opened SecRuns

  // ---- one signature ----

  /** The reservation of sec_sign is made. */
  ghost predicate Reserves(d: Sec, maxCtr: nat, hw: SignHw)
    requires Shape(d) && HwShape(hw.reserve)
  {
    d.state == IDLE && d.keyLoaded && d.ctr < maxCtr && Commit(d, RESERVED, d.ctr, hw.reserve).1 == Committed
  }

  ghost predicate SameIndex(d: Sec, d': Sec) {
    d'.state == IDLE && d'.ctr == d.ctr && d'.lastTx == d.lastTx
  }

  /** The newest record is of the signing index, and reserved. */
  ghost predicate StaysReserved(d: Sec, d': Sec)
    requires Shape(d')
  {
    && d'.state == RESERVED && d'.ctr == d.ctr && d'.lastTx > d.lastTx
    && d'.slots[d'.active] == Record(d.kState, d'.active, RESERVED, d.ctr, d'.lastTx)
  }

  /** The newest record and the counter are past the signing index. */
  ghost predicate LeadsPast(d: Sec, d': Sec)
    requires Shape(d) && Shape(d')
  {
    && d'.state == IDLE && d'.ctr == d.ctr + 1 && d'.lastTx > d.lastTx
    && d'.slots[d'.active] == Record(d.kState, d'.active, IDLE, d.ctr + 1, d'.lastTx)
  }

  /** What sec_sign leaves once past its gates. After a reservation that was recorded, either it is the newest record
      still, and no signature starts from there, or record and counter are past the index: never IDLE at the index. */
  lemma SignLeaves(d: Sec, maxCtr: nat, hw: SignHw)
    requires ReadyToCommit(d) && d.state == IDLE && d.keyLoaded && d.ctr < maxCtr < WORD
    requires HwShape(hw.reserve) && HwShape(hw.reserveBurn) && HwShape(hw.commit) && HwShape(hw.burn)
    ensures Shape(d)
    ensures var (d', rc) := Sign(d, maxCtr, hw);
            && Shape(d')
            && if !Reserves(d, maxCtr, hw) then !rc.Released? && (SameIndex(d, d') || LeadsPast(d, d'))
               else (StaysReserved(d, d') && !rc.Released?) || LeadsPast(d, d')
  {
    hide Commit, ReadyToCommit, ActiveNewest, Record;
    ReadyShape(d);
    var q := d.ctr;
    CommitOrdered(d, RESERVED, q, hw.reserve);
    CommitKeepsKeys(d, RESERVED, q, hw.reserve);
    var (d1, rc1) := Commit(d, RESERVED, q, hw.reserve);
    if rc1 == Refused {
      CommitTo(d1, q + 1, hw.reserveBurn);
    } else if rc1 == Committed {
      CommitTo(d1, q + 1, hw.commit);
      CommitTo(d1, q + 1, hw.burn);
      var (d2, rc2) := Commit(d1, IDLE, q + 1, hw.commit);
      if rc2 == Refused {
        CommitTo(d2, q + 1, hw.burn);
      }
    }
  }

  lemma CommitTo(d: Sec, c: nat, hw: CommitHw)
    requires ReadyToCommit(d) && HwShape(hw) && c < WORD
    ensures Shape(d)
    ensures var (d', rc) := Commit(d, IDLE, c, hw);
            && Shape(d') && (rc != PowerLost ==> ReadyToCommit(d')) && d'.kState == d.kState && d'.hwSeed == d.hwSeed
            && (rc == Committed ==> d'.state == IDLE && d'.ctr == c && d'.lastTx > d.lastTx
                                    && d'.slots[d'.active] == Record(d.kState, d'.active, IDLE, c, d'.lastTx))
            && (rc != Committed ==> d'.lastTx == d.lastTx && d'.active == d.active && d'.ctr == d.ctr && d'.state == d.state
                                    && d'.slots[d.active] == d.slots[d.active])
  {
    hide Commit, ActiveNewest, Record, ReadyToCommit;
    ReadyShape(d);
    CommitOrdered(d, IDLE, c, hw);
    CommitKeepsKeys(d, IDLE, c, hw);
  }

  lemma CommitKeepsKeys(d: Sec, state: nat, ctr: nat, hw: CommitHw)
    requires Shape(d) && HwShape(hw) && ctr < WORD
    ensures var (d', rc) := Commit(d, state, ctr, hw);
            && Shape(d') && d'.kState == d.kState && d'.hwSeed == d.hwSeed && d'.wrapped == d.wrapped
            && (rc == Committed ==> d'.state == state && d'.ctr == ctr)
  {
    hide Record, TornSlot;
    match hw {
      case Works(tx) => RecordNotBlank(d.kState, 1 - d.active, state, ctr, tx);
      case ReadBackFails(tx) => RecordNotBlank(d.kState, 1 - d.active, state, ctr, tx);
      case CutWriting(tx, k) =>
        RecordNotBlank(d.kState, 1 - d.active, state, ctr, tx);
        TornTagOneOf(d.slots[1 - d.active], Record(d.kState, 1 - d.active, state, ctr, tx), k);
      case _ =>
    }
  }

  predicate TakesEffect(hw: CommitHw, lastTx: nat) {
    hw.Works? && hw.tx > lastTx
  }

  predicate CutsPower(hw: CommitHw, lastTx: nat) {
    hw.Cut? || (hw.CutWriting? && hw.tx > lastTx)
  }

  /** A commit takes effect exactly when the hardware works and its number is new. */
  lemma CommitOutcome(d: Sec, state: nat, ctr: nat, hw: CommitHw)
    requires Shape(d) && HwShape(hw) && ctr < WORD
    ensures var (d', rc) := Commit(d, state, ctr, hw);
            && (rc == Committed <==> TakesEffect(hw, d.lastTx)) && (rc == PowerLost <==> CutsPower(hw, d.lastTx))
            && (rc == Committed ==> d'.lastTx == hw.tx) && (rc != Committed ==> d'.lastTx == d.lastTx)
  {
    hide Record, TornSlot;
  }

  /** Which hardware outcomes get the counter past the index. Without a power cut, one attempt to burn that works is
      enough; after a reservation it is so for every failure of the signature and of the commit. */
  lemma FailureBurns(d: Sec, maxCtr: nat, hw: SignHw)
    requires ReadyToCommit(d) && d.state == IDLE && d.keyLoaded && d.ctr < maxCtr < WORD && !hw.cutSigning
    requires HwShape(hw.reserve) && HwShape(hw.reserveBurn) && HwShape(hw.commit) && HwShape(hw.burn)
    ensures Shape(d) && Shape(Sign(d, maxCtr, hw).0)
    ensures var (d', rc) := Sign(d, maxCtr, hw);
            if CutsPower(hw.reserve, d.lastTx) then rc == SignCut
            else if !TakesEffect(hw.reserve, d.lastTx) then
              (LeadsPast(d, d') <==> TakesEffect(hw.reserveBurn, d.lastTx))
              && (rc == if CutsPower(hw.reserveBurn, d.lastTx) then SignCut else CommitError)
            else if !hw.signs || d.hwSeed == NO_KEY then
              (LeadsPast(d, d') <==> TakesEffect(hw.burn, hw.reserve.tx))
              && (rc == if CutsPower(hw.burn, hw.reserve.tx) then SignCut else PathError)
            else if TakesEffect(hw.commit, hw.reserve.tx) then LeadsPast(d, d') && rc == Released(d.ctr)
            else if CutsPower(hw.commit, hw.reserve.tx) then rc == SignCut
            else
              (LeadsPast(d, d') <==> TakesEffect(hw.burn, hw.reserve.tx))
              && (rc == if CutsPower(hw.burn, hw.reserve.tx) then SignCut else CommitError)
  {
    hide Commit, ReadyToCommit, ActiveNewest, Record;
    ReadyShape(d);
    var q := d.ctr;
    CommitOrdered(d, RESERVED, q, hw.reserve);
    CommitKeepsKeys(d, RESERVED, q, hw.reserve);
    CommitOutcome(d, RESERVED, q, hw.reserve);
    var (d1, rc1) := Commit(d, RESERVED, q, hw.reserve);
    if rc1 == Refused {
      CommitTo(d1, q + 1, hw.reserveBurn);
      CommitOutcome(d1, IDLE, q + 1, hw.reserveBurn);
    } else if rc1 == Committed {
      CommitTo(d1, q + 1, hw.commit);
      CommitOutcome(d1, IDLE, q + 1, hw.commit);
      CommitTo(d1, q + 1, hw.burn);
      CommitOutcome(d1, IDLE, q + 1, hw.burn);
      var (d2, rc2) := Commit(d1, IDLE, q + 1, hw.commit);
      if rc2 == Refused {
        CommitTo(d2, q + 1, hw.burn);
        CommitOutcome(d2, IDLE, q + 1, hw.burn);
      }
    }
  }

  // ---- the UART commands ----

  /** Which UART commits take effect with working hardware, state by state. From RESERVED only a counter beyond the
      reserved one is accepted, and nothing leads to a lower counter. */
  lemma UartTransitions(d: Sec, param: nat, ctr: nat, tx: nat)
    requires Shape(d) && ctr < WORD && d.lastTx < tx < WORD
    ensures var newState := param % 0x1_0000;
            var (d', rc) := UartCommit(d, param, ctr, Works(tx));
            && (rc == UartOk <==>
                  || (d.state == IDLE && newState in {IDLE, RESERVED, KEYGEN_PENDING, EXHAUSTED} && ctr >= d.ctr)
                  || (d.state == RESERVED && newState == IDLE && ctr >= d.ctr + 1)
                  || (d.state == KEYGEN_PENDING && newState == IDLE && ctr >= d.ctr))
            && (rc == UartOk ==> d'.state == newState && d'.ctr == ctr && d'.lastTx == tx
                                 && d'.slots[d'.active] == Record(d.kState, d'.active, newState, ctr, tx))
            && (rc != UartOk ==> d' == d)
            && (rc == UartLocked <==> d.state == ERROR_LOCKED) && (rc == UartBusy <==> d.state == BOOTING)
  {
    hide Record;
  }

  // ---- the ledger ----

  /** A committed reservation with no commit after it: the slot and the record that stand for it. */
  datatype Pending = Pending(id: nat, q: nat, record: Slot)

  /** A run with the log of reservations. All reservations are below `guard`, which both slots recover to, but for one
      that may be pending. */
  datatype Ledger = Ledger(w: World, reserved: seq<Release>, pending: Option<Pending>, guard: nat)

  ghost function Reach(l: Ledger): nat {
    if l.pending.Some? then l.pending.value.q + 1 else l.guard
  }

  /** A reservation without a seed in the hardware endangers no key. */
  function Note(log: seq<Release>, seed: KeyId, q: nat): seq<Release> {
    if seed == NO_KEY then log else log + [Release(seed, q)]
  }

  ghost function StandsFor(d: Sec, q: nat): Pending
    requires Shape(d)
  {
    Pending(d.active, q, d.slots[d.active])
  }

  /** The bookkeeping of one command; the world itself does what SecRuns says. */
  ghost function Advance(l: Ledger, c: Command): Ledger
    requires Shape(l.w.dev) && CommandShape(c)
  {
    var d, l' := l.w.dev, l.(w := Step(l.w, c));
    var d' := l'.w.dev;
    if l.w.off && !c.PowerCycle? then l'
    else
      match c
      case SignCmd(maxCtr, hw) =>
        if !Reserves(d, maxCtr, hw) then l'
        else if d'.state == RESERVED && Shape(d') then
          l'.(reserved := Note(l.reserved, d.hwSeed, d.ctr), pending := Some(StandsFor(d', d.ctr)))
        else l'.(reserved := Note(l.reserved, d.hwSeed, d.ctr), pending := None, guard := d.ctr + 1)
      case CommitCmd(param, ctr, hw) =>
        if UartCommit(d, param, ctr, hw).1 != UartOk then l'
        else if d'.state == RESERVED && Shape(d') then
          l'.(reserved := Note(l.reserved, d.hwSeed, ctr), pending := Some(StandsFor(d', ctr)))
        else l'.(pending := None, guard := Reach(l))
      case BootCmd(_, _) => if DeviceSafe(d', Reach(l)) then l'.(pending := None, guard := Reach(l)) else l'
      case KeygenCmd(hw) => if KeygenNew(d, l.w.nextKey, hw).1 then l'.(pending := None, guard := 0) else l'
      case _ => l'
  }

  // ---- what holds of a pending reservation ----

  /** A record of the same key written after the pending one: it can only be one that leads past the index. */
  ghost predicate LaterIsPast(t: Tag, p: Pending)
    requires SlotShape(p.record)
  {
    t.Mac? && p.record.tag.Mac? && t.key == p.record.tag.key && |t.message| == 49 && TagTx(t) > TxOf(p.record.body) ==>
      StateOf(t.message[..48]) == IDLE && CtrOf(t.message[..48]) >= p.q + 1
  }

  ghost predicate ReservedRecord(p: Pending) {
    && p.id < 2 && SlotShape(p.record) && Tagged(p.record, p.id) && StateOf(p.record.body) == RESERVED
    && CtrOf(p.record.body) == p.q && p.q + 1 < WORD
  }

  ghost predicate Held(d: Sec, p: Pending, guard: nat) {
    && Shape(d) && ReservedRecord(p) && guard <= p.q
    && (d.slots[p.id] == p.record || d.slots[p.id].tag == Garbled)
    && LaterIsPast(d.slots[1 - p.id].tag, p)
    && (Operational(d.state) ==> d.state == RESERVED && d.ctr == p.q && d.active == p.id && d.slots[p.id] == p.record)
  }

  lemma HeldShape(d: Sec, p: Pending, guard: nat)
    requires Held(d, p, guard)
    ensures Shape(d) && p.id < 2 && ReservedRecord(p) && SlotShape(p.record)
    ensures Operational(d.state) ==> d.state == RESERVED && d.ctr == p.q && d.active == p.id && d.slots[p.id] == p.record
  {
    hide ReservedRecord, LaterIsPast;
    assert p.id < 2 && SlotShape(p.record) by { RecordShape(p); }
  }

  lemma RecordShape(p: Pending)
    requires ReservedRecord(p)
    ensures p.id < 2 && SlotShape(p.record)
  {
  }

  /** A reservation that has just been committed. */
  lemma FreshlyHeld(d: Sec, q: nat, hw: CommitHw, guard: nat)
    requires ReadyToCommit(d) && HwShape(hw) && guard <= q && q + 1 < WORD
    ensures Shape(d)
    ensures Commit(d, RESERVED, q, hw).1 == Committed ==>
              var d' := Commit(d, RESERVED, q, hw).0;
              Shape(d') && d'.active < 2 && d'.state == RESERVED && d'.ctr == q && Held(d', StandsFor(d', q), guard)
  {
    hide Commit, Record, TagTx, TxOf, StateOf, CtrOf, MagicOf, ReadyToCommit, Tagged;
    ReadyShape(d);
    CommitOrdered(d, RESERVED, q, hw);
    CommitKeepsKeys(d, RESERVED, q, hw);
    if Commit(d, RESERVED, q, hw).1 == Committed {
      var d' := Commit(d, RESERVED, q, hw).0;
      var tx := LastTxFits(d, q, hw);
      RecordTx(d.kState, d'.active, RESERVED, q, tx);
    }
  }

  /** The counter value of a commit that took effect. */
  lemma LastTxFits(d: Sec, q: nat, hw: CommitHw) returns (tx: nat)
    requires Shape(d) && HwShape(hw) && Commit(d, RESERVED, q, hw).1 == Committed
    ensures tx == Commit(d, RESERVED, q, hw).0.lastTx < WORD
  {
    tx := hw.tx;
  }

  lemma WrittenIsPast(p: Pending, key: KeyId, id: nat, c: nat, tx: nat)
    requires SlotShape(p.record) && id < 2 && p.q + 1 <= c < WORD && tx < WORD
    ensures SlotShape(Record(key, id, IDLE, c, tx)) && LaterIsPast(Record(key, id, IDLE, c, tx).tag, p)
  {
    hide EncodeBody, StateOf, CtrOf, TxOf, TagTx;
    BodyRoundTrip(IDLE, c, tx);
    assert (EncodeBody(IDLE, c, tx) + [id])[..48] == EncodeBody(IDLE, c, tx);
  }

  /** A commit past the pending index: either both slots lead past it, or the reservation is still held. */
  lemma CommitWhileHeld(d: Sec, p: Pending, guard: nat, c: nat, hw: CommitHw)
    requires Held(d, p, guard) && DeviceSafe(d, guard) && HwShape(hw)
    requires d.active == p.id < 2 && d.slots[p.id] == p.record && p.q + 1 <= c < WORD
    ensures Shape(d)
    ensures var (d', rc) := Commit(d, IDLE, c, hw);
            && (rc == Committed ==> DeviceSafe(d', p.q + 1) && d'.state == IDLE && d'.ctr == c)
            && (rc != Committed ==> DeviceSafe(d', guard) && Held(d', p, guard) && d'.state == d.state)
  {
    hide TagSafe, LaterIsPast, ReservedRecord, Record, TornSlot, AllZero, RecoversTo;
    RecordShape(p);
    var id := 1 - d.active;
    CommitSafe(d, IDLE, c, hw, guard);
    match hw {
      case Works(tx) =>
        if tx > d.lastTx {
          WrittenSafe(d, p, c, tx);
        }
      case CutWriting(tx, k) =>
        WrittenIsPast(p, d.kState, id, c, tx);
        TornTagOneOf(d.slots[id], Record(d.kState, id, IDLE, c, tx), k);
        GarbledIsPast(p);
      case ReadBackFails(tx) =>
        GarbledIsPast(p);
      case _ =>
    }
  }

  lemma GarbledIsPast(p: Pending)
    requires SlotShape(p.record)
    ensures LaterIsPast(Garbled, p)
  {
  }

  /** The record written beside the pending one. */
  lemma WrittenSafe(d: Sec, p: Pending, c: nat, tx: nat)
    requires Shape(d) && ReservedRecord(p) && d.active == p.id && d.slots[p.id] == p.record
    requires p.q + 1 <= c < WORD && d.lastTx < tx < WORD
    ensures DeviceSafe(Commit(d, IDLE, c, Works(tx)).0, p.q + 1)
  {
    hide Record, TagSafe, BlankSlot, StateOf, CtrOf, TxOf, MagicOf, Tagged, RecoversTo;
    var id := 1 - d.active;
    RecordSafe(d.kState, id, IDLE, c, tx, p.q + 1);
    RecordNotBlank(d.kState, id, IDLE, c, tx);
    PendingSafe(p);
  }

  lemma PendingSafe(p: Pending)
    requires ReservedRecord(p)
    ensures SlotShape(p.record) && TagSafe(p.record.tag, p.q + 1) && p.record != BlankSlot()
    ensures RecoversTo(p.record.body) == p.q + 1
  {
    assert (p.record.body + [p.id])[..48] == p.record.body;
    FirstByte(p.record.body);
  }

  // ---- each command ----

  /** The reservation of sec_sign was recorded: it is still pending, or both slots lead past it. */
  lemma SignReserved(d: Sec, maxCtr: nat, hw: SignHw, guard: nat)
    requires ReadyToCommit(d) && DeviceSafe(d, guard) && maxCtr < WORD
    requires HwShape(hw.reserve) && HwShape(hw.reserveBurn) && HwShape(hw.commit) && HwShape(hw.burn)
    requires Shape(d) && Reserves(d, maxCtr, hw)
    ensures guard <= d.ctr
    ensures var d' := Sign(d, maxCtr, hw).0;
            && Shape(d')
            && (d'.state == RESERVED ==> DeviceSafe(d', guard) && Held(d', StandsFor(d', d.ctr), guard))
            && (d'.state != RESERVED ==> DeviceSafe(d', d.ctr + 1))
  {
    hide Commit, Held, DeviceSafe, ReadyToCommit, Record;
    var q := d.ctr;
    DeviceSafeShape(d, guard);
    CommitSafe(d, RESERVED, q, hw.reserve, guard);
    FreshlyHeld(d, q, hw.reserve, guard);
    var d1 := Commit(d, RESERVED, q, hw.reserve).0;
    var p := StandsFor(d1, q);
    if !hw.cutSigning {
      CommitHeldOn(d1, p, guard, q + 1, hw.burn);
      if hw.signs && d1.hwSeed != NO_KEY {
        CommitHeldOn(d1, p, guard, q + 1, hw.commit);
        var (d2, rc2) := Commit(d1, IDLE, q + 1, hw.commit);
        if rc2 == Refused {
          CommitHeldOn(d2, p, guard, q + 1, hw.burn);
        }
      }
    }
  }

  /** CommitWhileHeld for a device that is RESERVED. */
  lemma CommitHeldOn(d: Sec, p: Pending, guard: nat, c: nat, hw: CommitHw)
    requires Held(d, p, guard) && DeviceSafe(d, guard) && HwShape(hw) && d.state == RESERVED && p.q + 1 <= c < WORD
    ensures Shape(d)
    ensures var (d', rc) := Commit(d, IDLE, c, hw);
            && Shape(d')
            && (rc == Committed ==> DeviceSafe(d', p.q + 1) && d'.state == IDLE && d'.ctr == c)
            && (rc != Committed ==> DeviceSafe(d', guard) && Held(d', p, guard) && d'.state == RESERVED
                                    && p == StandsFor(d', p.q))
  {
    hide Commit, DeviceSafe, LaterIsPast, ReservedRecord;
    HeldShape(d, p, guard);
    CommitWhileHeld(d, p, guard, c, hw);
    var (d', rc) := Commit(d, IDLE, c, hw);
    if rc == Committed {
      DeviceSafeShape(d', p.q + 1);
    }
  }

  lemma UartReserved(d: Sec, param: nat, c: nat, hw: CommitHw, guard: nat)
    requires ReadyToCommit(d) && DeviceSafe(d, guard) && c < WORD && HwShape(hw) && !WrappingReserve(param, c)
    ensures Shape(d)
    ensures var (d', rc) := UartCommit(d, param, c, hw);
            rc == UartOk && d'.state == RESERVED ==>
              guard <= d.ctr <= c && d.state == IDLE && Shape(d') && Held(d', StandsFor(d', c), guard)
  {
    hide Commit, Held, DeviceSafe, ReadyToCommit, Record;
    ReadyShape(d);
    DeviceSafeShape(d, guard);
    if Operational(d.state) && c >= d.ctr && UartAllowed(d, param % 0x1_0000, c) {
      CommitKeepsKeys(d, param % 0x1_0000, c, hw);
      if param % 0x1_0000 == RESERVED {
        FreshlyHeld(d, c, hw, guard);
      }
    }
  }

  /** A UART command while a reservation is pending. */
  lemma UartHeld(d: Sec, p: Pending, param: nat, c: nat, hw: CommitHw, guard: nat)
    requires Held(d, p, guard) && DeviceSafe(d, guard) && c < WORD && HwShape(hw)
    ensures Shape(d)
    ensures var (d', rc) := UartCommit(d, param, c, hw);
            && (rc == UartOk ==> DeviceSafe(d', p.q + 1) && d'.state == IDLE && p.q < c)
            && (rc != UartOk ==> DeviceSafe(d', guard) && Held(d', p, guard))
  {
    hide Commit, DeviceSafe, LaterIsPast, ReservedRecord, Held;
    HeldShape(d, p, guard);
    if Operational(d.state) && c >= d.ctr && UartAllowed(d, param % 0x1_0000, c) {
      CommitHeldOn(d, p, guard, c, hw);
    }
  }

  ghost predicate Readable(d: Sec, key: KeyId, hw: BootHw, id: nat)
    requires Shape(d) && id < 2
  {
    (if id == 0 then hw.hmac0 else hw.hmac1) && Validates(d.slots[id], id, key)
  }

  /** A boot that cannot read the pending reservation but reads the other slot, and that slot leads back to it. */
  ghost predicate PassesOver(d: Sec, p: Pending, key: KeyId, hw: BootHw)
    requires Shape(d) && p.id < 2
  {
    && BootKeys(d, key, hw).1 && !Readable(d, key, hw, p.id) && Readable(d, key, hw, 1 - p.id)
    && RecoversTo(d.slots[1 - p.id].body) <= p.q
  }

  /** What Held and DeviceSafe look at. */
  lemma SameSlotsHeld(d: Sec, d': Sec, p: Pending, guard: nat)
    requires Held(d, p, guard) && d'.slots == d.slots && Shape(d')
    requires !Operational(d'.state) || (d'.state == d.state && d'.ctr == d.ctr && d'.active == d.active)
    ensures Held(d', p, guard)
  {
    hide LaterIsPast, ReservedRecord;
  }

  /** Recovery from the pending reservation itself. */
  lemma BurnHeld(d: Sec, p: Pending, guard: nat, v0: bool, v1: bool, burn: CommitHw)
    requires Held(d, p, guard) && DeviceSafe(d, guard) && HwShape(burn) && !Operational(d.state)
    requires p.id < 2 && Shape(d) && d.slots[p.id] == p.record
    ensures var d' := Recover(d, p.id, v0, v1, burn).0;
            DeviceSafe(d', p.q + 1) || (DeviceSafe(d', guard) && Held(d', p, guard) && !Operational(d'.state))
  {
    hide Commit, DeviceSafe, Held, LaterIsPast, StateOf, CtrOf, TxOf, MagicOf;
    HeldShape(d, p, guard);
    var d1 := d.(active := p.id, slotValid := [v0, v1], lastTx := TxOf(p.record.body));
    SameSlotsHeld(d, d1, p, guard);
    SameSlotsSafe(d, d1, guard);
    ReservedFields(p);
    CommitWhileHeld(d1, p, guard, p.q + 1, burn);
    var (d2, rc) := Commit(d1, IDLE, p.q + 1, burn);
    if rc == Committed {
      DeviceSafeShape(d2, p.q + 1);
      SameSlotsSafe(d2, d2.(factoryLocked := true), p.q + 1);
    } else {
      DeviceSafeShape(d2, guard);
      SameSlotsSafe(d2, Lock(d2), guard);
      SameSlotsHeld(d2, Lock(d2), p, guard);
    }
  }

  lemma ReservedFields(p: Pending)
    requires ReservedRecord(p)
    ensures p.id < 2 && SlotShape(p.record) && StateOf(p.record.body) == RESERVED && CtrOf(p.record.body) == p.q
    ensures p.q + 1 < WORD
  {
  }

  /** Recovery from the other slot, which leads past the pending index. */
  lemma OtherRecovers(d: Sec, p: Pending, key: KeyId, v0: bool, v1: bool, burn: CommitHw, guard: nat)
    requires Held(d, p, guard) && DeviceSafe(d, guard) && HwShape(burn) && !Operational(d.state)
    requires p.id < 2 && Shape(d) && Validates(d.slots[1 - p.id], 1 - p.id, key)
    requires RecoversTo(d.slots[1 - p.id].body) > p.q
    ensures Shape(d) && DeviceSafe(Recover(d, 1 - p.id, v0, v1, burn).0, p.q + 1)
  {
    hide Recover, TagSafe, LaterIsPast, RecoversTo, ReservedRecord;
    var id := 1 - p.id;
    ValidatesTag(d.slots[id], id, key, guard);
    OtherTag(d.slots[id], id, key, guard, p.q + 1);
    PendingSafe(p);
    GarbledSafe(p.q + 1);
    ValidNotBlank(d.slots[id], id, key);
    RecoverSafe(d, id, v0, v1, burn, p.q + 1);
  }

  lemma ValidNotBlank(s: Slot, id: nat, key: KeyId)
    requires SlotShape(s) && id < 2 && Validates(s, id, key)
    ensures s != BlankSlot()
  {
    assert BlankSlot().tag == Zero;
  }

  lemma OtherTag(s: Slot, id: nat, key: KeyId, guard: nat, floor: nat)
    requires SlotShape(s) && id < 2 && Validates(s, id, key) && TagSafe(s.tag, guard) && floor <= RecoversTo(s.body)
    ensures TagSafe(s.tag, floor)
  {
    hide RecoversTo, StateOf, MagicOf;
    assert (s.body + [id])[..48] == s.body;
  }

  /** Of two readable records the boot takes the other one only when it is a later one, which leads past the index. */
  lemma LaterChosen(d: Sec, p: Pending, key: KeyId, guard: nat)
    requires Held(d, p, guard) && TxDistinct(d) && Shape(d) && p.id < 2
    requires Validates(d.slots[p.id], p.id, key) && Validates(d.slots[1 - p.id], 1 - p.id, key)
    ensures d.slots[p.id] == p.record
    ensures Choose(d, true, true) == Chosen(p.id)
            || (Choose(d, true, true) == Chosen(1 - p.id) && RecoversTo(d.slots[1 - p.id].body) > p.q)
  {
    hide MagicOf, TxOf, StateOf, CtrOf;
    var id := 1 - p.id;
    assert (d.slots[id].body + [id])[..48] == d.slots[id].body;
    assert (d.slots[p.id].body + [p.id])[..48] == d.slots[p.id].body;
  }

  /** Keys and seed leave the slots alone. */
  lemma KeysHeld(d: Sec, p: Pending, key: KeyId, hw: BootHw, guard: nat)
    requires Held(d, p, guard) && DeviceSafe(d, guard) && TxDistinct(d)
    ensures var d1 := BootKeys(d, key, hw).0;
            && d1.slots == d.slots && !Operational(d1.state) && Shape(d1) && DeviceSafe(d1, guard) && Held(d1, p, guard)
            && TxDistinct(d1)
  {
    hide DeviceSafe, Held, TagTx, LaterIsPast, ReservedRecord;
    HeldShape(d, p, guard);
    var d1 := BootKeys(d, key, hw).0;
    SameSlotsSafe(d, d1, guard);
    SameSlotsHeld(d, d1, p, guard);
  }

  lemma ReadablePending(d: Sec, p: Pending, key: KeyId, guard: nat)
    requires Held(d, p, guard) && Shape(d) && p.id < 2 && Validates(d.slots[p.id], p.id, key)
    ensures d.slots[p.id] == p.record
  {
    hide LaterIsPast, ReservedRecord, MagicOf;
  }

  /** With neither slot readable a device that holds a reservation does not start. */
  lemma SettledWithout(d: Sec, p: Pending, guard: nat)
    requires Held(d, p, guard) && DeviceSafe(d, guard) && !Operational(d.state) && Shape(d)
    ensures var d' := WithoutRecord(d); DeviceSafe(d', guard) && Held(d', p, guard) && !Operational(d'.state)
  {
    hide DeviceSafe, Held;
    HeldNotBlank(d, p, guard);
    SameSlotsSafe(d, Lock(d), guard);
    SameSlotsHeld(d, Lock(d), p, guard);
  }

  lemma HeldNotBlank(d: Sec, p: Pending, guard: nat)
    requires Held(d, p, guard)
    ensures Shape(d) && !AllZero(d)
  {
    hide LaterIsPast, StateOf, CtrOf, MagicOf;
    assert BlankSlot().tag == Zero;
  }

  /** sec_boot while a reservation is pending. */
  lemma BootHeld(d: Sec, p: Pending, key: KeyId, hw: BootHw, guard: nat)
    requires Held(d, p, guard) && DeviceSafe(d, guard) && TxDistinct(d) && HwShape(hw.burn)
    requires Shape(d) && p.id < 2 && !PassesOver(d, p, key, hw)
    ensures var d' := Boot(d, key, hw).0;
            DeviceSafe(d', p.q + 1) || (DeviceSafe(d', guard) && Held(d', p, guard) && !Operational(d'.state))
  {
    hide DeviceSafe, Held, Validates, Recover, TxDistinct, RecoversTo, BlankSlot;
    var (d1, ready) := BootKeys(d, key, hw);
    KeysHeld(d, p, key, hw, guard);
    if ready {
      var v0 := hw.hmac0 && Validates(d1.slots[0], 0, key);
      var v1 := hw.hmac1 && Validates(d1.slots[1], 1, key);
      if Readable(d, key, hw, p.id) {
        if v0 && v1 {
          LaterChosen(d1, p, key, guard);
        }
        if Choose(d1, v0, v1) == Chosen(p.id) {
          ReadablePending(d1, p, key, guard);
          BurnHeld(d1, p, guard, v0, v1, hw.burn);
        } else {
          OtherRecovers(d1, p, key, v0, v1, hw.burn, guard);
        }
      } else if Readable(d, key, hw, 1 - p.id) {
        OtherRecovers(d1, p, key, v0, v1, hw.burn, guard);
      } else {
        SettledWithout(d1, p, guard);
      }
    }
  }

  lemma LoseHeld(d: Sec, p: Pending, guard: nat, l0: bool, l1: bool)
    requires Held(d, p, guard) && DeviceSafe(d, guard) && Shape(d)
    ensures Held(PowerOn(d.(slots := [Lose(d.slots[0], l0), Lose(d.slots[1], l1)])), p, guard)
  {
    hide ReservedRecord, StateOf, CtrOf, TxOf, TagTx;
    RecordShape(p);
  }

  lemma LoseSafe(d: Sec, l0: bool, l1: bool, floor: nat)
    requires DeviceSafe(d, floor) && Shape(d)
    ensures DeviceSafe(PowerOn(d.(slots := [Lose(d.slots[0], l0), Lose(d.slots[1], l1)])), floor)
  {
    hide TagSafe, BlankSlot;
    GarbledSafe(floor);
    LoseBlank(d.slots[0], l0);
    LoseBlank(d.slots[1], l1);
  }

  // ---- runs ----

  /** Every reservation is below Reach, as far as its key can still be used. */
  ghost predicate Below(l: Ledger) {
    forall i :: 0 <= i < |l.reserved| ==>
      && NO_KEY != l.reserved[i].seed < l.w.nextKey
      && (l.reserved[i].seed in {l.w.dev.hwSeed, l.w.hostBlob} ==> l.reserved[i].q < Reach(l))
  }

  ghost predicate Kept(l: Ledger) {
    && DeviceSafe(l.w.dev, l.guard)
    && (l.pending.Some? ==> Held(l.w.dev, l.pending.value, l.guard))
    && Below(l) && StrictlyIncreasing(l.reserved)
    && forall r :: r in l.w.log ==> r in l.reserved
  }

  ghost predicate Guarded(l: Ledger) {
    Safe(l.w) && Ordered(l.w) && Kept(l)
  }

  /** A command that reserves nothing. */
  lemma NothingReserved(l: Ledger, l': Ledger)
    requires Kept(l) && l'.reserved == l.reserved && l'.w.log == l.w.log && l'.w.nextKey >= l.w.nextKey
    requires DeviceSafe(l'.w.dev, l'.guard) && (l'.pending.Some? ==> Held(l'.w.dev, l'.pending.value, l'.guard))
    requires l'.w.dev.hwSeed in {NO_KEY, l.w.dev.hwSeed, l.w.hostBlob} || l'.w.dev.hwSeed >= l.w.nextKey
    requires l'.w.hostBlob == l.w.hostBlob || l'.w.hostBlob >= l.w.nextKey
    requires Reach(l) <= Reach(l') || (l'.w.dev.hwSeed >= l.w.nextKey && l'.w.hostBlob >= l.w.nextKey)
    ensures Kept(l')
  {
    hide DeviceSafe, Held, Reach;
  }

  /** A reservation at or above all earlier ones of its key. */
  lemma OneReserved(l: Ledger, l': Ledger, q: nat)
    requires Kept(l) && Safe(l.w) && l'.reserved == Note(l.reserved, l.w.dev.hwSeed, q) && Reach(l) <= q < Reach(l')
    requires l'.w.log == l.w.log || (l'.w.log == l.w.log + [Release(l.w.dev.hwSeed, q)] && l.w.dev.hwSeed != NO_KEY)
    requires l'.w.nextKey == l.w.nextKey && l'.w.hostBlob == l.w.hostBlob && l'.w.dev.hwSeed == l.w.dev.hwSeed
    requires DeviceSafe(l'.w.dev, l'.guard) && (l'.pending.Some? ==> Held(l'.w.dev, l'.pending.value, l'.guard))
    ensures Kept(l')
  {
    hide DeviceSafe, Held, Reach;
  }

  /** With a reservation pending no signature starts. */
  lemma HeldRefuses(d: Sec, p: Pending, guard: nat, maxCtr: nat, hw: SignHw)
    requires Held(d, p, guard) && maxCtr < WORD
    requires HwShape(hw.reserve) && HwShape(hw.reserveBurn) && HwShape(hw.commit) && HwShape(hw.burn)
    ensures Shape(d) && Sign(d, maxCtr, hw).0 == d && !Sign(d, maxCtr, hw).1.Released? && !Reserves(d, maxCtr, hw)
  {
    hide Commit;
    HeldShape(d, p, guard);
  }

  lemma ReleasedReserves(d: Sec, maxCtr: nat, hw: SignHw)
    requires Shape(d) && maxCtr < WORD
    requires HwShape(hw.reserve) && HwShape(hw.reserveBurn) && HwShape(hw.commit) && HwShape(hw.burn)
    requires !Reserves(d, maxCtr, hw)
    ensures !Sign(d, maxCtr, hw).1.Released?
  {
    hide Commit;
  }

  lemma SignKeeps(l: Ledger, maxCtr: nat, hw: SignHw)
    requires Guarded(l) && !l.w.off && CommandShape(SignCmd(maxCtr, hw))
    ensures Shape(l.w.dev) && Kept(Advance(l, SignCmd(maxCtr, hw)))
  {
    hide Safe, Ordered, Held, DeviceSafe, Reserves, Sign, Below, StrictlyIncreasing, Note, ReadyToCommit;
    SafeShape(l.w);
    var d := l.w.dev;
    SignSafe(d, maxCtr, hw, l.guard);
    var l' := Advance(l, SignCmd(maxCtr, hw));
    if l.pending.Some? {
      HeldRefuses(d, l.pending.value, l.guard, maxCtr, hw);
      NothingReserved(l, l');
    } else if !Reserves(d, maxCtr, hw) {
      ReleasedReserves(d, maxCtr, hw);
      NothingReserved(l, l');
    } else {
      ReservesReady(l.w, maxCtr, hw);
      SignReserved(d, maxCtr, hw, l.guard);
      OneReserved(l, l', d.ctr);
    }
  }

  lemma ReservesReady(w: World, maxCtr: nat, hw: SignHw)
    requires Ordered(w) && !w.off && Shape(w.dev) && HwShape(hw.reserve) && Reserves(w.dev, maxCtr, hw)
    ensures ReadyToCommit(w.dev)
  {
    hide Commit, TxDistinct;
  }

  lemma UartKeeps(l: Ledger, param: nat, ctr: nat, hw: CommitHw)
    requires Guarded(l) && !l.w.off && CommandShape(CommitCmd(param, ctr, hw)) && !WrappingReserve(param, ctr)
    ensures Shape(l.w.dev) && Kept(Advance(l, CommitCmd(param, ctr, hw)))
  {
    hide Safe, Ordered, Held, DeviceSafe, UartCommit, Below, StrictlyIncreasing, Note, WrappingReserve;
    SafeShape(l.w);
    var d := l.w.dev;
    var l' := Advance(l, CommitCmd(param, ctr, hw));
    UartSafe(d, param, ctr, hw, l.guard);
    if l.pending.Some? {
      UartHeld(d, l.pending.value, param, ctr, hw, l.guard);
      NothingReserved(l, l');
    } else if UartCommit(d, param, ctr, hw).1 == UartOk && l'.w.dev.state == RESERVED {
      UartReady(l.w, param, ctr, hw);
      UartReserved(d, param, ctr, hw, l.guard);
      OneReserved(l, l', ctr);
    } else {
      NothingReserved(l, l');
    }
  }

  lemma UartReady(w: World, param: nat, ctr: nat, hw: CommitHw)
    requires Ordered(w) && !w.off && Shape(w.dev) && ctr < WORD && HwShape(hw)
    requires UartCommit(w.dev, param, ctr, hw).1 == UartOk
    ensures ReadyToCommit(w.dev)
  {
    hide Commit, TxDistinct;
  }

  lemma BootKeeps(l: Ledger, key: KeyId, hw: BootHw)
    requires Guarded(l) && !l.w.off && HwShape(hw.burn)
    requires l.pending.Some? && Shape(l.w.dev) && l.pending.value.id < 2 ==> !PassesOver(l.w.dev, l.pending.value, key, hw)
    ensures Shape(l.w.dev) && Kept(Advance(l, BootCmd(key, hw)))
  {
    hide Ordered, Held, DeviceSafe, Boot, Below, StrictlyIncreasing, PassesOver;
    SafeShape(l.w);
    var d := l.w.dev;
    BootSafe(d, key, hw, l.guard);
    if l.pending.Some? {
      HeldShape(d, l.pending.value, l.guard);
      assert TxDistinct(d) by { OrderedShape(l.w); }
      BootHeld(d, l.pending.value, key, hw, l.guard);
    }
    NothingReserved(l, Advance(l, BootCmd(key, hw)));
  }

  lemma KeygenKeeps(l: Ledger, hw: KeygenHw)
    requires Guarded(l) && !l.w.off
    ensures Shape(l.w.dev) && Kept(Advance(l, KeygenCmd(hw)))
  {
    hide Ordered, Held, DeviceSafe, Below, StrictlyIncreasing;
    SafeShape(l.w);
    var d := l.w.dev;
    var d' := KeygenNew(d, l.w.nextKey, hw).0;
    if KeygenNew(d, l.w.nextKey, hw).1 {
      KeygenSafe(l.w, hw);
    } else {
      DeviceSafeShape(d, l.guard);
      SameSlotsSafe(d, d', l.guard);
      if l.pending.Some? {
        SameSlotsHeld(d, d', l.pending.value, l.guard);
      }
    }
    NothingReserved(l, Advance(l, KeygenCmd(hw)));
  }

  lemma IdleKeeps(l: Ledger, c: Command)
    requires Guarded(l) && (c.PowerCycle? || (c.WrapLoad? && !l.w.off))
    ensures Shape(l.w.dev) && Kept(Advance(l, c))
  {
    hide Ordered, Held, DeviceSafe, Below, StrictlyIncreasing;
    SafeShape(l.w);
    var d := l.w.dev;
    match c
    case PowerCycle(l0, l1) =>
      LoseSafe(d, l0, l1, l.guard);
      if l.pending.Some? {
        LoseHeld(d, l.pending.value, l.guard, l0, l1);
      }
      NothingReserved(l, Advance(l, c));
    case WrapLoad =>
      DeviceSafeShape(d, l.guard);
      SameSlotsSafe(d, d.(wrapped := l.w.hostBlob), l.guard);
      if l.pending.Some? {
        SameSlotsHeld(d, d.(wrapped := l.w.hostBlob), l.pending.value, l.guard);
      }
      NothingReserved(l, Advance(l, c));
  }

  /** The boot of this command passes over the pending reservation. */
  ghost predicate Overlooks(l: Ledger, c: Command)
    requires Shape(l.w.dev)
  {
    && c.BootCmd? && !l.w.off && l.pending.Some? && l.pending.value.id < 2
    && PassesOver(l.w.dev, l.pending.value, c.key, c.bootHw)
  }

  lemma AdvanceKeeps(l: Ledger, c: Command)
    requires Guarded(l) && CommandShape(c) && (c.CommitCmd? ==> !WrappingReserve(c.param, c.ctr))
    requires Shape(l.w.dev) ==> !Overlooks(l, c)
    ensures Shape(l.w.dev) && Guarded(Advance(l, c))
  {
    hide Safe, Ordered, Kept, Advance, WrappingReserve, PassesOver;
    SafeShape(l.w);
    StepSafe(l.w, c);
    StepOrdered(l.w, c);
    AdvanceSteps(l, c);
    if !l.w.off || c.PowerCycle? {
      match c
      case BootCmd(key, hw) => BootKeeps(l, key, hw);
      case SignCmd(maxCtr, hw) => SignKeeps(l, maxCtr, hw);
      case CommitCmd(param, ctr, hw) => UartKeeps(l, param, ctr, hw);
      case KeygenCmd(hw) => KeygenKeeps(l, hw);
      case _ => IdleKeeps(l, c);
    }
  }

  /** The bookkeeping changes nothing in the run itself. */
  lemma AdvanceSteps(l: Ledger, c: Command)
    requires Shape(l.w.dev) && CommandShape(c)
    ensures Advance(l, c).w == Step(l.w, c)
    ensures l.w.off && !c.PowerCycle? ==> Advance(l, c) == l
  {
    hide Sign, Boot, UartCommit, KeygenNew, DeviceSafe, Reserves;
  }

  /** ls[i + 1] is what command i makes of ls[i]: any command but the reservation that wraps, and a boot only if it does
      not pass over a pending reservation. */
  ghost predicate IsLedgerRun(ls: seq<Ledger>, cs: seq<Command>) {
    && |ls| == |cs| + 1
    && forall i, next :: 0 <= i < |cs| && next == i + 1 ==> Enters(ls[i], cs[i], ls[next])
  }

  ghost predicate Enters(l: Ledger, c: Command, l': Ledger) {
    && CommandShape(c) && (c.CommitCmd? ==> !WrappingReserve(c.param, c.ctr))
    && (Shape(l.w.dev) ==> !Overlooks(l, c) && l' == Advance(l, c))
  }

  function FirstLedger(fused: bool): Ledger {
    Ledger(FirstPowerOn(fused), [], None, 0)
  }

  lemma {:induction false} LedgerKeeps(fused: bool, ls: seq<Ledger>, cs: seq<Command>, i: nat)
    requires IsLedgerRun(ls, cs) && ls[0] == FirstLedger(fused) && i <= |cs|
    ensures Guarded(ls[i])
  {
    hide Safe, Ordered, DeviceSafe, Held, Advance, FirstPowerOn, Overlooks, WrappingReserve;
    if i == 0 {
      FirstSafe(fused);
      FirstKept(fused);
    } else {
      LedgerKeeps(fused, ls, cs, i - 1);
      assert Enters(ls[i - 1], cs[i - 1], ls[i]);
      SafeShape(ls[i - 1].w);
      AdvanceKeeps(ls[i - 1], cs[i - 1]);
    }
  }

  lemma FirstKept(fused: bool)
    ensures DeviceSafe(FirstPowerOn(fused).dev, 0) && FirstPowerOn(fused).log == []
  {
  }

  /** No index is reserved twice under one key, whatever came of the first reservation; what is released was reserved;
      and a device that is ready to sign stands past all of them. */
  lemma NoReservationTwice(fused: bool, ls: seq<Ledger>, cs: seq<Command>)
    requires IsLedgerRun(ls, cs) && ls[0] == FirstLedger(fused)
    ensures var l := ls[|cs|];
            && StrictlyIncreasing(l.reserved)
            && (forall r :: r in l.w.log ==> r in l.reserved)
            && (l.w.dev.state == IDLE ==>
                  forall r :: r in l.reserved && r.seed == l.w.dev.hwSeed ==> r.q < l.w.dev.ctr)
  {
    hide Safe, Ordered, DeviceSafe, Held, Enters, StrictlyIncreasing;
    var l := ls[|cs|];
    LedgerKeeps(fused, ls, cs, |cs|);
    DeviceSafeShape(l.w.dev, l.guard);
    if l.pending.Some? {
      HeldShape(l.w.dev, l.pending.value, l.guard);
    }
  }

  // ---- the boot that passes over a reservation ----

  /** With a working burn the boot puts a held reservation at or below the counter again if and only if it passes over
      it: the pending slot cannot be read, and the other one can and leads no further than the pending index. */
  lemma PassedOverExactly(d: Sec, p: Pending, key: KeyId, hw: BootHw, guard: nat, tx: nat)
    requires Held(d, p, guard) && DeviceSafe(d, guard) && TxDistinct(d) && hw.burn == Works(tx) && tx < WORD
    requires Shape(d) && p.id < 2 && TxOf(d.slots[1 - p.id].body) < tx
    ensures var d' := Boot(d, key, hw).0;
            Operational(d'.state) && d'.ctr <= p.q <==> PassesOver(d, p, key, hw)
  {
    hide DeviceSafe, Held, Validates, Recover, TxDistinct, RecoversTo, StateOf, TxOf;
    if PassesOver(d, p, key, hw) {
      var d1 := BootKeys(d, key, hw).0;
      var id := 1 - p.id;
      DeviceTagSafe(d, id, guard);
      ValidatesTag(d.slots[id], id, key, guard);
      HealthyRecover(d1, id, hw.hmac0 && Validates(d1.slots[0], 0, key), hw.hmac1 && Validates(d1.slots[1], 1, key), tx);
    } else {
      BootHeld(d, p, key, hw, guard);
      var d' := Boot(d, key, hw).0;
      if DeviceSafe(d', p.q + 1) {
        DeviceSafeShape(d', p.q + 1);
      }
    }
  }

  lemma DeviceTagSafe(d: Sec, id: nat, floor: nat)
    requires DeviceSafe(d, floor) && id < 2
    ensures Shape(d) && TagSafe(d.slots[id].tag, floor)
  {
  }

  /** The reservation and the signature work, the commit and the burn do not. */
  function StuckSign(tx: nat): SignHw {
    SignHw(Works(tx), Cut, true, false, StepFails, StepFails)
  }

  /** Rotation, a signature, one that stays reserved; the slot of the reservation is lost; restart, and a signature. */
  function LostCommands(): (cs: seq<Command>)
    ensures |cs| == 7
  {
    [KeygenCmd(KeygenHw(true, true, true, true, true)), SignCmd(32, GoodSign(0)), SignCmd(32, StuckSign(3)),
     PowerCycle(false, true), WrapLoad, BootCmd(1, HealthyBoot(4)), SignCmd(32, GoodSign(4))]
  }

  ghost predicate Notes(l: Ledger, c: Command, l': Ledger) {
    Shape(l.w.dev) && CommandShape(c) && l' == Advance(l, c)
  }

  /** After one signature: index 0 is spent and slot 0 says so. */
  ghost predicate OneSpent(l: Ledger) {
    var d := l.w.dev;
    && Shape(d) && !l.w.off && l.reserved == [Release(1, 0)] && l.w.hostBlob == 1 == d.kState == d.hwSeed
    && d.state == IDLE && d.ctr == 1 && d.keyLoaded && d.lastTx == 2 && d.active == 0
    && d.slots[0] == Record(1, 0, IDLE, 1, 2)
  }

  /** A rotation on a new device. */
  ghost predicate Fresh(l: Ledger) {
    Rotated(l.w) && Shape(l.w.dev) && l.reserved == []
  }

  lemma RotateFirst(fused: bool) returns (l: Ledger)
    ensures Notes(FirstLedger(fused), LostCommands()[0], l) && Fresh(l)
  {
    hide BlankSlot, DeviceSafe, Rotated, Step;
    BlankSafe();
    FirstRotation(fused);
    var first := FirstLedger(fused);
    l := Advance(first, LostCommands()[0]);
    assert l.w == Step(first.w, FirstCommands()[0]);
    KeygenShape(first.w);
  }

  lemma KeygenShape(w: World)
    requires Shape(w.dev) && !w.off
    ensures Shape(Step(w, FirstCommands()[0]).dev)
  {
    hide BlankSlot;
    BlankSafe();
  }

  lemma SpendOne(l: Ledger) returns (l': Ledger)
    requires Fresh(l)
    ensures Notes(l, LostCommands()[1], l') && OneSpent(l')
  {
    hide Sign, Record, DeviceSafe, Reserves;
    GoodSignLeaves(l.w.dev, 0);
    l' := Advance(l, LostCommands()[1]);
  }

  /** A signature on working hardware, from one counter to the next. */
  lemma GoodSignLeaves(d: Sec, tx: nat)
    requires Shape(d) && d.state == IDLE && d.keyLoaded && d.hwSeed != NO_KEY && d.ctr < 32 && d.lastTx <= tx
    requires tx + 2 < WORD
    ensures Reserves(d, 32, GoodSign(tx))
    ensures var (d', rc) := Sign(d, 32, GoodSign(tx));
            && Shape(d') && rc == Released(d.ctr) && d'.state == IDLE && d'.ctr == d.ctr + 1 && d'.lastTx == tx + 2
            && d'.active == d.active && d'.slots[d.active] == Record(d.kState, d.active, IDLE, d.ctr + 1, tx + 2)
            && d'.kState == d.kState && d'.hwSeed == d.hwSeed && d'.keyLoaded
  {
    hide Record;
    RecordNotBlank(d.kState, 1 - d.active, RESERVED, d.ctr, tx + 1);
    RecordNotBlank(d.kState, d.active, IDLE, d.ctr + 1, tx + 2);
  }

  /** After the restart: index 1 was reserved, and the counter is back at it. */
  ghost predicate BackAtOne(l: Ledger) {
    var d := l.w.dev;
    && Shape(d) && !l.w.off && l.reserved == [Release(1, 0), Release(1, 1)]
    && d.state == IDLE && d.ctr == 1 && d.keyLoaded && d.hwSeed == 1 && d.lastTx <= 4
  }

  lemma ReserveAndLose(l: Ledger) returns (l1: Ledger, l2: Ledger, l3: Ledger)
    requires OneSpent(l)
    ensures Notes(l, LostCommands()[2], l1) && Notes(l1, LostCommands()[3], l2) && Notes(l2, LostCommands()[4], l3)
    ensures !l3.w.off && l3.reserved == [Release(1, 0), Release(1, 1)] && Shape(l3.w.dev) && l3.w.dev.wrapped == 1
    ensures l3.w.dev.slots[0] == Record(1, 0, IDLE, 1, 2) && l3.w.dev.slots[1].tag == Garbled
  {
    hide Record, DeviceSafe;
    RecordNotBlank(1, 1, RESERVED, 1, 3);
    l1 := Advance(l, LostCommands()[2]);
    l2 := Advance(l1, LostCommands()[3]);
    l3 := Advance(l2, LostCommands()[4]);
  }

  lemma RestartAtOne(l: Ledger) returns (l': Ledger)
    requires !l.w.off && l.reserved == [Release(1, 0), Release(1, 1)] && Shape(l.w.dev) && l.w.dev.wrapped == 1
    requires l.w.dev.slots[0] == Record(1, 0, IDLE, 1, 2) && l.w.dev.slots[1].tag == Garbled
    ensures Notes(l, LostCommands()[5], l') && BackAtOne(l')
  {
    hide Record, DeviceSafe, Boot, Validates, StateOf, TxOf, CtrOf;
    RecordTx(1, 0, IDLE, 1, 2);
    GarbledNotValid(l.w.dev.slots[1], 1, 1);
    TaggedValidates(l.w.dev.slots[0], 0);
    HealthyBootRecovers(l.w.dev, 0, 1, 4);
    l' := Advance(l, LostCommands()[5]);
  }

  lemma TaggedValidates(s: Slot, id: nat)
    requires SlotShape(s) && id < 2 && Tagged(s, id)
    ensures s.tag.Mac? && Validates(s, id, s.tag.key)
  {
  }

  lemma SignAtOne(l: Ledger) returns (l': Ledger)
    requires BackAtOne(l)
    ensures Notes(l, LostCommands()[6], l') && l'.reserved == [Release(1, 0), Release(1, 1), Release(1, 1)]
  {
    hide Sign, Record, DeviceSafe, Reserves;
    GoodSignLeaves(l.w.dev, 4);
    l' := Advance(l, LostCommands()[6]);
  }

  /** A reachable second reservation of one index: one slot alone holds it, and that slot is lost before the restart. */
  lemma LostReservation(fused: bool) returns (ls: seq<Ledger>)
    ensures |ls| == 8 && ls[0] == FirstLedger(fused)
    ensures forall i, next :: 0 <= i < 7 && next == i + 1 ==> Notes(ls[i], LostCommands()[i], ls[next])
    ensures ls[7].reserved == [Release(1, 0), Release(1, 1), Release(1, 1)]
  {
    hide Notes, LostCommands, Fresh, OneSpent, BackAtOne, FirstLedger, Record;
    var l1 := RotateFirst(fused);
    var l2 := SpendOne(l1);
    var l3, l4, l5 := ReserveAndLose(l2);
    var l6 := RestartAtOne(l5);
    var l7 := SignAtOne(l6);
    ls := [FirstLedger(fused), l1, l2, l3, l4, l5, l6, l7];
  }
}