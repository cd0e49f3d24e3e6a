/** One DRAM channel: collision checks, refresh, the read/write mode, the data bus and the
    banks, stepped once per cycle. */
module DramControl {
  import opened Prelude
  import opened BitStrings
  import opened DramMapping
  import opened DramQueues

  datatype Timing = Timing(tRP: nat, tRCD: nat, tCAS: nat, tREF: nat, tRFC: nat, turnAround: nat, busReturn: nat,
                           bankgroupStall: nat, rows: nat, rowsPerRefresh: nat)

  ghost predicate AllEmpty(q: Queue) {
    forall i :: 0 <= i < |q| ==> q[i].None?
  }

  /** Slots are only emptied, never filled. */
  ghost predicate OnlyEmptied(q: Queue, q': Queue) {
    && |q| == |q'|
    && forall i :: 0 <= i < |q| && q[i].None? ==> q'[i].None?
  }

  ghost predicate AllIdle(banks: seq<Bank>) {
    forall b :: 0 <= b < |banks| ==> !banks[b].valid
  }

  /** Nobody waits for a write. */
  ghost predicate SilentWrites(q: Queue) {
    forall i :: 0 <= i < |q| && q[i].Some? ==> q[i].value.toReturn == {}
  }

  ghost predicate AllChecked(q: Queue) {
    forall i :: 0 <= i < |q| && q[i].Some? ==> q[i].value.forwardChecked
  }

  /** A write that was checked before stays; another survives marked as checked, or is dropped. */
  ghost predicate Checked(e: Option<Request>, e': Option<Request>) {
    && (e.Some? && e.value.forwardChecked ==> e' == e)
    && (e'.Some? ==> e.Some? && e' == Some(e.value.(forwardChecked := true)))
  }

  ghost predicate CheckedUpTo(q: Queue, q': Queue, n: nat) {
    && |q| == |q'| && n <= |q|
    && (forall i :: 0 <= i < n ==> Checked(q[i], q'[i]))
    && (forall i :: n <= i < |q| ==> q'[i] == q[i])
  }

  lemma CheckNext(q: Queue, q': Queue, q'': Queue, i: nat)
    requires CheckedUpTo(q, q', i) && i < |q|
    requires (q'' == q' && (q'[i].Some? ==> q'[i].value.forwardChecked))
      || (q'[i].Some? && !q'[i].value.forwardChecked && q'' == q'[i := None])
      || (q'[i].Some? && q'' == q'[i := Some(q'[i].value.(forwardChecked := true))])
    ensures CheckedUpTo(q, q'', i + 1)
  {
  }

  lemma CheckedAll(q: Queue, q': Queue)
    requires CheckedUpTo(q, q', |q|)
    ensures AllChecked(q')
  {
  }

  /** No two requests of the queue are for the same block. */
  ghost predicate Distinct(g: Geometry, q: Queue) {
    forall i, j :: 0 <= i < j < |q| && q[i].Some? && q[j].Some? ==> !IsCollision(g, q[i].value.address, q[j].value.address)
  }

  ghost predicate SameRead(e: Option<Request>, e': Option<Request>) {
    && e.Some? && e'.Some?
    && e.value.forwardChecked == e'.value.forwardChecked && e.value.address == e'.value.address
  }

  /** A read that was checked before keeps its slot, and gains only waiters. */
  ghost predicate ChecksKept(q: Queue, q': Queue) {
    && |q| == |q'|
    && forall i :: 0 <= i < |q| && q[i].Some? && q[i].value.forwardChecked ==>
      && q'[i].Some? && q[i].value.deps <= q'[i].value.deps && q[i].value.toReturn <= q'[i].value.toReturn
      && q'[i].value == q[i].value.(deps := q'[i].value.deps, toReturn := q'[i].value.toReturn)
  }

  /** The read in slot `i` was merged into another one for its block, or kept if there is none. */
  ghost predicate Handled(g: Geometry, q: Queue, q': Queue, i: nat)
    requires i < |q| && q[i].Some?
  {
    || (exists j :: 0 <= j < |q| && j != i && MergedInto(g, q, q', i, j))
    || (q' == q[i := Some(q[i].value.(forwardChecked := true))]
        && forall j :: 0 <= j < |q| && j != i && q[j].Some? ==> !IsCollision(g, q[j].value.address, q[i].value.address))
  }

  ghost predicate MergedInto(g: Geometry, q: Queue, q': Queue, i: nat, j: nat)
    requires i < |q| && q[i].Some? && j < |q|
  {
    && q[j].Some? && IsCollision(g, q[j].value.address, q[i].value.address)
    && q' == q[j := Some(Absorb(q[j].value, q[i].value))][i := None]
  }

  /** Among the first `n` slots, no write covers the block of a read that was checked just now. */
  ghost predicate Unforwarded(g: Geometry, q: Queue, q': Queue, wq: Queue, n: nat) {
    && |q| == |q'| && n <= |q|
    && forall i :: 0 <= i < n && q'[i].Some? && q[i].Some? && !q[i].value.forwardChecked ==>
      !Covered(g, wq, q'[i].value.address)
  }

  lemma UnforwardedNext(g: Geometry, q: Queue, mid: Queue, q': Queue, wq: Queue, i: nat)
    requires Unforwarded(g, q, mid, wq, i) && i < |mid| == |q'|
    requires forall j :: 0 <= j < |q'| && j != i && q'[j].Some? ==> SameRead(mid[j], q'[j])
    requires mid[i].Some? && !mid[i].value.forwardChecked && q'[i].Some? ==> !Covered(g, wq, q'[i].value.address)
    requires q[i].Some? && mid[i].Some? ==> mid[i].value.forwardChecked == q[i].value.forwardChecked
    requires mid[i].None? ==> q'[i].None?
    ensures Unforwarded(g, q, q', wq, i + 1)
  {
    hide Covered;
  }

  function Listed(requester: Option<nat>): set<nat> {
    if requester.Some? then {requester.value} else {}
  }

  /** The request is in the first slot that was free. */
  ghost predicate TakenOn(q: Queue, q': Queue, e: Request) {
    exists i :: 0 <= i < |q| && FirstFree(q, i) && q' == q[i := Some(e)]
  }

  ghost predicate FirstFree(q: Queue, i: nat)
    requires i < |q|
  {
    q[i].None? && forall j :: 0 <= j < i ==> q[j].Some?
  }

  function IdleBank(): Bank {
    Bank(false, false, false, false, None, 0, Slot(false, 0))
  }

  function ReleasesOf(q: Queue, n: nat): seq<Release>
    requires n <= |q|
  {
    if n == 0 then []
    else ReleasesOf(q, n - 1) + if q[n - 1].Some? then [ReleaseOf(q[n - 1].value)] else []
  }

  predicate BusDone(banks: seq<Bank>, active: Option<nat>, now: nat) {
    active.Some? && active.value < |banks| && banks[active.value].ready <= now
  }

  /** The state that the sub-steps of a cycle pass on. */
  datatype Snapshot = Snapshot(banks: seq<Bank>, active: Option<nat>, wq: Queue, rq: Queue, writeMode: bool, released: seq<Release>) {
    predicate OnBus() {
      && active.Some? && active.value < |banks|
      && banks[active.value].pkt.index < |Chosen(wq, rq, banks[active.value].pkt.write)|
      && Chosen(wq, rq, banks[active.value].pkt.write)[banks[active.value].pkt.index].Some?
    }
  }

  /** The state after the request on the bus was answered. */
  function FinishedView(v: Snapshot): Snapshot
    requires v.OnBus()
  {
    var pkt := v.banks[v.active.value].pkt;
    v.(banks := v.banks[v.active.value := v.banks[v.active.value].(valid := false)],
       active := None,
       wq := if pkt.write then v.wq[pkt.index := None] else v.wq,
       rq := if pkt.write then v.rq else v.rq[pkt.index := None],
       released := v.released + [ReleaseOf(Chosen(v.wq, v.rq, pkt.write)[pkt.index].value)])
  }

  /** The request on the bus is answered exactly when it is done; nothing else changes. */
  ghost predicate Finished(v: Snapshot, v': Snapshot, now: nat) {
    if BusDone(v.banks, v.active, now) then v.OnBus() && v' == FinishedView(v) else v' == v
  }

  ghost predicate ViewInv(g: Geometry, v: Snapshot, accepted: seq<Accepted>, warmup: bool) {
    && BankInv(g, v.banks, v.active, v.wq, v.rq, v.writeMode)
    && CheckedDistinct(g, v.wq) && CheckedDistinct(g, v.rq) && SilentWrites(v.wq)
    && ReadsInv(g, v.rq, v.released, accepted) && (warmup ==> AllIdle(v.banks))
    && g.offset <= ADDRESS_BITS && |v.wq| >= 1 && |v.rq| >= 1
  }

  function Occupied(q: Queue, n: nat): nat
    requires n <= |q|
  {
    if n == 0 then 0 else Occupied(q, n - 1) + if q[n - 1].Some? then 1 else 0
  }

  /** Writes reach the high mark, or there is nothing else to do; writes fall below the low
      mark while reads wait, or run out. */
  ghost predicate Unbalanced(wq: Queue, rq: Queue, writeMode: bool) {
    var writeCount, readCount := Occupied(wq, |wq|), Occupied(rq, |rq|);
    if writeMode then writeCount == 0 || (readCount > 0 && writeCount < |wq| * 6 / 8)
    else writeCount >= |wq| * 7 / 8 || (readCount == 0 && writeCount > 0)
  }

  ghost function TurnAround(banks: seq<Bank>, active: Option<nat>, now: nat, t: Timing): nat {
    t.turnAround + if active.Some? && active.value < |banks| then banks[active.value].ready else now
  }

  function ResetBank(bank: Bank, now: nat, tCAS: nat): Bank {
    bank.(valid := false, openRow := if bank.ready < now + tCAS then None else bank.openRow)
  }

  function Requeue(e: Option<Request>, now: nat): Option<Request> {
    if e.Some? then Some(e.value.(scheduled := false, ready := At(now))) else None
  }

  ghost predicate OnActive(v: Snapshot, pkt: Slot) {
    v.active.Some? && v.active.value < |v.banks| && v.banks[v.active.value].pkt == pkt
  }

  ghost predicate BanksReset(v: Snapshot, v': Snapshot, now: nat, tCAS: nat, n: nat) {
    && |v'.banks| == |v.banks| && n <= |v.banks|
    && (forall b :: 0 <= b < n ==>
          v'.banks[b] == if v.banks[b].valid && v.active != Some(b) then ResetBank(v.banks[b], now, tCAS) else v.banks[b])
    && (forall b :: n <= b < |v.banks| ==> v'.banks[b] == v.banks[b])
  }

  /** Every scheduled request but the one on the bus is waiting again. */
  ghost predicate Requeued(v: Snapshot, q: Queue, q': Queue, write: bool, now: nat) {
    && |q'| == |q|
    && forall i :: 0 <= i < |q| ==>
      q'[i] == if Busy(q[i]) && !OnActive(v, Slot(write, i)) then Requeue(q[i], now) else q[i]
  }

  ghost predicate PartlyRequeued(q: Queue, q': Queue, now: nat) {
    && |q'| == |q|
    && forall i :: 0 <= i < |q| ==> q'[i] == q[i] || (Busy(q[i]) && q'[i] == Requeue(q[i], now))
  }

  ghost predicate Swapped(v: Snapshot, v': Snapshot, now: nat, tCAS: nat) {
    && BanksReset(v, v', now, tCAS, |v.banks|)
    && Requeued(v, v.wq, v'.wq, true, now) && Requeued(v, v.rq, v'.rq, false, now)
    && v'.active == v.active && v'.released == v.released && v'.writeMode == !v.writeMode
  }

  ghost predicate SwappedUpTo(v: Snapshot, v': Snapshot, now: nat, tCAS: nat, n: nat) {
    && BanksReset(v, v', now, tCAS, n)
    && PartlyRequeued(v.wq, v'.wq, now) && PartlyRequeued(v.rq, v'.rq, now)
    && v'.active == v.active && v'.released == v.released && v'.writeMode == v.writeMode
  }

  predicate RefreshDue(now: nat, lastRefresh: nat, t: Timing) {
    now >= lastRefresh + t.tREF
  }

  function WrapRow(row: nat, rows: nat): nat {
    if row >= rows then row - rows else row
  }

  /** A bank after the refresh step: an idle bank takes a pending refresh, one whose refresh
      is over becomes usable with no open row. */
  function Refreshed(bank: Bank, due: bool, now: nat, tRFC: nat): Bank {
    var need := due || bank.needRefresh;
    if need && !bank.valid then bank.(ready := now + tRFC, needRefresh := false, underRefresh := true)
    else if bank.underRefresh && bank.ready <= now then bank.(needRefresh := need, underRefresh := false, openRow := None)
    else bank.(needRefresh := need)
  }

  /** The first of the busy banks with the least ready time, if any is busy. */
  ghost predicate IsNext(banks: seq<Bank>, next: nat) {
    && next < |banks|
    && (banks[next].valid || AllIdle(banks))
    && (forall b :: 0 <= b < |banks| && banks[b].valid && banks[next].valid ==>
          banks[next].ready <= banks[b].ready && (b < next ==> banks[next].ready < banks[b].ready))
  }

  ghost predicate IsBankgroupOf(g: Geometry, v: Snapshot, b: nat, group: nat) {
    && b < |v.banks| && v.banks[b].pkt.index < |Chosen(v.wq, v.rq, v.banks[b].pkt.write)|
    && var e := Chosen(v.wq, v.rq, v.banks[b].pkt.write)[v.banks[b].pkt.index];
      e.Some? && g.Valid() && |e.value.address| == ADDRESS_BITS && group == BankgroupRequestIndex(g, e.value.address)
  }

  function PopulatedView(v: Snapshot, next: nat, ready: nat): Snapshot
    requires next < |v.banks|
  {
    v.(banks := v.banks[next := v.banks[next].(ready := ready)], active := Some(next))
  }

  /** Bank `next` is on the bus until its data has crossed, after its bankgroup has cooled down. */
  ghost predicate Populated(g: Geometry, t: Timing, now: nat, v: Snapshot, v': Snapshot,
                            bankgroupReady: seq<nat>, bankgroupReady': seq<nat>, next: nat) {
    && next < |v.banks|
    && exists group: nat ::
      && IsBankgroupOf(g, v, next, group) && group < |bankgroupReady|
      && v' == PopulatedView(v, next, Max(bankgroupReady[group], now) + t.busReturn)
      && bankgroupReady' == bankgroupReady[group := now + t.busReturn + t.bankgroupStall]
  }

  predicate BusFree(v: Snapshot, next: nat, busAvailable: nat, now: nat) {
    next < |v.banks| && v.banks[next].valid && v.banks[next].ready <= now && v.active.None? && busAvailable <= now
  }

  function Max(a: nat, b: nat): (r: nat)
    ensures r >= a && r >= b && (r == a || r == b)
  {
    if a > b then a else b
  }

  predicate Waiting(e: Option<Request>) {
    e.Some? && !e.value.scheduled
  }

  /** The order in which waiting requests are preferred. */
  predicate NextSchedule(g: Geometry, banks: seq<Bank>, lhs: Option<Request>, rhs: Option<Request>)
    requires g.Valid() && |banks| == BankCount(g)
    requires lhs.Some? ==> |lhs.value.address| == ADDRESS_BITS
    requires rhs.Some? ==> |rhs.value.address| == ADDRESS_BITS
  {
    if !Waiting(rhs) then true
    else if !Waiting(lhs) then false
    else
      BankIndexInRange(g, lhs.value.address);
      BankIndexInRange(g, rhs.value.address);
      var rready := !banks[BankRequestIndex(g, rhs.value.address)].valid;
      var lready := !banks[BankRequestIndex(g, lhs.value.address)].valid;
      if rready == lready then lhs.value.ready.AtMost(rhs.value.ready) else lready
  }

  ghost predicate QueueReady(g: Geometry, v: Snapshot) {
    && g.Valid() && |v.banks| == BankCount(g)
    && Located(Chosen(v.wq, v.rq, v.writeMode)) && |Chosen(v.wq, v.rq, v.writeMode)| >= 1
  }

  ghost predicate IdleAt(g: Geometry, v: Snapshot, i: nat)
    requires QueueReady(g, v) && i < |Chosen(v.wq, v.rq, v.writeMode)| && Waiting(Chosen(v.wq, v.rq, v.writeMode)[i])
  {
    var b := BankRequestIndex(g, Chosen(v.wq, v.rq, v.writeMode)[i].value.address);
    b < |v.banks| && !v.banks[b].valid
  }

  /** Waiting request `i` comes no later than waiting request `j`. */
  ghost predicate Precedes(g: Geometry, v: Snapshot, i: nat, j: nat)
    requires QueueReady(g, v) && i < |Chosen(v.wq, v.rq, v.writeMode)| && j < |Chosen(v.wq, v.rq, v.writeMode)|
    requires Waiting(Chosen(v.wq, v.rq, v.writeMode)[i]) && Waiting(Chosen(v.wq, v.rq, v.writeMode)[j])
  {
    var q := Chosen(v.wq, v.rq, v.writeMode);
    if IdleAt(g, v, i) == IdleAt(g, v, j) then q[i].value.ready.AtMost(q[j].value.ready) else IdleAt(g, v, i)
  }

  /** Slot `best` precedes every waiting request among the first `n`. */
  ghost predicate BestUpTo(g: Geometry, v: Snapshot, n: nat, best: nat) {
    && QueueReady(g, v) && best < n <= |Chosen(v.wq, v.rq, v.writeMode)|
    && forall j :: 0 <= j < n && Waiting(Chosen(v.wq, v.rq, v.writeMode)[j]) ==>
      Waiting(Chosen(v.wq, v.rq, v.writeMode)[best]) && Precedes(g, v, best, j)
  }

  ghost predicate IsBest(g: Geometry, v: Snapshot, best: nat) {
    BestUpTo(g, v, |Chosen(v.wq, v.rq, v.writeMode)|, best)
  }

  ghost predicate Settled(q: Queue, warmup: bool) {
    AllChecked(q) && (warmup ==> AllEmpty(q))
  }

  /** The bank after it took on the request in slot `pkt` for row `row`. */
  function ServingBank(bank: Bank, row: Bits, now: nat, t: Timing, pkt: Slot): Bank {
    var hit := bank.openRow == Some(row);
    var delay := if bank.openRow.Some? then t.tRP + t.tRCD else t.tRCD;
    Bank(true, hit, false, false, Some(row), now + t.tCAS + if hit then 0 else delay, pkt)
  }

  ghost predicate Serviceable(g: Geometry, v: Snapshot, now: nat, i: nat) {
    && QueueReady(g, v) && i < |Chosen(v.wq, v.rq, v.writeMode)|
    && var e := Chosen(v.wq, v.rq, v.writeMode)[i];
      && e.Some? && e.value.ready.By(now)
      && var b := BankRequestIndex(g, e.value.address);
        b < |v.banks| && !v.banks[b].valid && !v.banks[b].underRefresh
  }

  ghost function ServicedView(g: Geometry, t: Timing, now: nat, v: Snapshot, i: nat): Snapshot
    requires Serviceable(g, v, now, i)
  {
    var e := Chosen(v.wq, v.rq, v.writeMode)[i].value;
    var b := BankRequestIndex(g, e.address);
    v.(banks := v.banks[b := ServingBank(v.banks[b], Decode(g, e.address).row, now, t, Slot(v.writeMode, i))],
       wq := if v.writeMode then v.wq[i := Schedule(v.wq[i])] else v.wq,
       rq := if v.writeMode then v.rq else v.rq[i := Schedule(v.rq[i])])
  }

  /** The state after request `i` was offered to its bank. */
  ghost function AfterService(g: Geometry, t: Timing, now: nat, v: Snapshot, i: nat): Snapshot {
    if Serviceable(g, v, now, i) then ServicedView(g, t, now, v, i) else v
  }

  /** What the collision checks leave: no write of a block and no waiting reader is lost. */
  ghost predicate Sifted(g: Geometry, v: Snapshot, v': Snapshot) {
    && v' == v.(wq := v'.wq, rq := v'.rq, released := v'.released)
    && CheckedUpTo(v.wq, v'.wq, |v.wq|) && Covers(g, v.wq, v'.wq) && OnlyEmptied(v.rq, v'.rq)
    && ChecksKept(v.rq, v'.rq) && AllChecked(v'.wq) && AllChecked(v'.rq) && Distinct(g, v'.wq) && Distinct(g, v'.rq)
    && Unforwarded(g, v.rq, v'.rq, v'.wq, |v'.rq|)
    && v.released <= v'.released && WaitersKept(g, v.rq, v'.rq, v'.released[|v.released|..])
  }

  /** In warmup everything is answered first. */
  ghost predicate Drained(v: Snapshot, v': Snapshot) {
    && v' == v.(wq := v'.wq, rq := v'.rq, released := v.released + ReleasesOf(v.rq, |v.rq|))
    && AllEmpty(v'.wq) && AllEmpty(v'.rq) && |v'.wq| == |v.wq| && |v'.rq| == |v.rq|
  }

  /** The states between the steps of a cycle, the next bank for the bus and the chosen packet. */
  datatype Trace = Trace(drained: Snapshot, sifted: Snapshot, finished: Snapshot, swapped: Snapshot, refreshed: Snapshot,
                         populated: Snapshot, next: nat, packet: nat, busAvailable: nat, cooldown: seq<nat>, cooldown': seq<nat>,
                         due: bool)

  /** One cycle from `v` to `v'`: drain in warmup, check collisions, finish the request on the bus,
      turn the bus around, refresh, put the next bank on the bus, serve the chosen packet. */
  ghost predicate Cycle(g: Geometry, t: Timing, now: nat, warmup: bool, v: Snapshot, c: Trace, v': Snapshot) {
    && (if warmup then Drained(v, c.drained) else c.drained == v)
    && Sifted(g, c.drained, c.sifted)
    && Finished(c.sifted, c.finished, now)
    && (if Unbalanced(c.finished.wq, c.finished.rq, c.finished.writeMode) then Swapped(c.finished, c.swapped, now, t.tCAS)
        else c.swapped == c.finished)
    && AllRefreshed(c.swapped, c.refreshed, c.due, now, t.tRFC)
    && IsNext(c.refreshed.banks, c.next)
    && (if BusFree(c.refreshed, c.next, c.busAvailable, now)
        then Populated(g, t, now, c.refreshed, c.populated, c.cooldown, c.cooldown', c.next)
        else c.populated == c.refreshed && c.cooldown' == c.cooldown)
    && IsBest(g, c.populated, c.packet)
    && v' == AfterService(g, t, now, c.populated, c.packet)
  }

  ghost predicate AllRefreshed(v: Snapshot, v': Snapshot, due: bool, now: nat, tRFC: nat) {
    && v' == v.(banks := v'.banks) && |v'.banks| == |v.banks|
    && forall b :: 0 <= b < |v.banks| ==> v'.banks[b] == Refreshed(v.banks[b], due, now, tRFC)
  }

  class DramChannel {
    const geo: Geometry
    const t: Timing

    var now: nat
    var warmup: bool
    var wq: Queue
    var rq: Queue
    var banks: seq<Bank>
    var active: Option<nat>
    var bankgroupReady: seq<nat>
    var writeMode: bool
    var busAvailable: nat
    var lastRefresh: nat
    var refreshRow: nat

    /** Everything pushed to the requesters so far, and, as history, every read taken on. */
    var released: seq<Release>
    ghost var accepted: seq<Accepted>

    ghost function View(): Snapshot
      reads this
    {
      Snapshot(banks, active, wq, rq, writeMode, released)
    }

    ghost predicate Valid()
      reads this
    {
      && ViewInv(geo, View(), accepted, warmup)
      && |bankgroupReady| == Pow2(geo.bankgroup + geo.rank)
    }

    constructor (geo: Geometry, t: Timing, readSlots: nat, writeSlots: nat, warmup: bool)
      requires geo.Valid() && readSlots >= 1 && writeSlots >= 1
      ensures Valid() && this.geo == geo && this.t == t && this.warmup == warmup
      ensures AllEmpty(wq) && AllEmpty(rq) && |wq| == writeSlots && |rq| == readSlots && AllIdle(banks)
      ensures released == [] && accepted == [] && active == None
      ensures forall b :: 0 <= b < |banks| ==> banks[b].openRow == None && !banks[b].needRefresh && !banks[b].underRefresh
      ensures |banks| == Ranks(geo) * Bankgroups(geo) * Banks(geo)
    {
      this.geo, this.t, this.warmup := geo, t, warmup;
      now, active, writeMode, busAvailable, lastRefresh, refreshRow := 0, None, false, 0, 0, 0;
      wq := seq(writeSlots, _ => None);
      rq := seq(readSlots, _ => None);
      banks := seq(BankCount(geo), _ => IdleBank());
      bankgroupReady := seq(Pow2(geo.bankgroup + geo.rank), _ => 0);
      released, accepted := [], [];
      new;
      InitialBanks(geo, banks, wq, rq);
      NothingOwed(rq, |rq|);
      OffsetFits(geo);
      BankCountIs(geo);
    }

    /** In every reachable state a request is scheduled exactly when its own bank is busy with it;
        busy banks, but for the one on the bus, serve the queue of the current mode; and none of
        them is under refresh. */
    lemma BankStates(write: bool, i: nat, b: nat)
      requires Valid() && i < |Chosen(wq, rq, write)| && Chosen(wq, rq, write)[i].Some? && b < |banks|
      requires geo.Valid() && |Chosen(wq, rq, write)[i].value.address| == ADDRESS_BITS
      ensures (banks[b].valid && banks[b].pkt == Slot(write, i)) <==>
        (Busy(Chosen(wq, rq, write)[i]) && BankRequestIndex(geo, Chosen(wq, rq, write)[i].value.address) == b)
      ensures banks[b].valid && active != Some(b) ==> banks[b].pkt.write == writeMode
      ensures banks[b].valid ==> !banks[b].underRefresh
    {
      hide ReadsInv, CheckedDistinct, BankRequestIndex, BankCount;
      ScheduledIffServed(geo, banks, active, wq, rq, writeMode, write, i, b);
    }

    /** In every reachable state each read taken on waits in a slot or was answered after it had
        been taken on, and never more answers were pushed than reads taken on. */
    lemma ReadsAccounted(k: nat)
      requires Valid() && k < |accepted|
      ensures Recorded(geo, rq, released, accepted[k])
      ensures Owed(rq, |rq|) + Pushed(released) <= |accepted|
    {
      hide BankInv, CheckedDistinct, Recorded;
    }

    // ---- taking on requests --------------------------------------------------------------

    method FirstEmpty(q: Queue) returns (i: nat)
      ensures i <= |q| && (i < |q| ==> q[i].None?) && forall j :: 0 <= j < i ==> q[j].Some?
    {
      i := 0;
      while i < |q| && q[i].Some?
        invariant i <= |q| && forall j :: 0 <= j < i ==> q[j].Some?
      {
        i := i + 1;
      }
    }

    /** Takes on a read if a slot is free; `requester` is absent when no response is wanted. */
    method AddRead(address: Bits, deps: set<nat>, requester: Option<nat>) returns (ok: bool)
      requires Valid() && |address| == ADDRESS_BITS
      modifies this`rq, this`accepted
      ensures Valid() && ok == !(forall i :: 0 <= i < |old(rq)| ==> old(rq)[i].Some?)
      ensures !ok ==> rq == old(rq) && accepted == old(accepted)
      ensures ok ==> TakenOn(old(rq), rq, Request(address, At(now), false, false, deps, Listed(requester)))
      ensures ok && requester.Some? ==> accepted == old(accepted) + [Accepted(address, deps, requester.value, |released|)]
    {
      hide BankInv, ReadsInv, CheckedDistinct;
      var i := FirstEmpty(rq);
      if i == |rq| {
        return false;
      }
      var e := Request(address, At(now), false, false, deps, Listed(requester));
      EnqueueStep(geo, banks, active, wq, rq, writeMode, false, i, e);
      EnqueueDistinct(geo, rq, i, Some(e));
      if requester.Some? {
        AcceptStep(geo, rq, released, accepted, i, e, requester.value);
        accepted := accepted + [Accepted(address, deps, requester.value, |released|)];
      } else {
        KeepStep(geo, rq, released, accepted, i, Some(e));
      }
      assert FirstFree(rq, i);
      rq := rq[i := Some(e)];
      ok := true;
    }

    method AddWrite(address: Bits) returns (ok: bool)
      requires Valid() && |address| == ADDRESS_BITS
      modifies this`wq
      ensures Valid() && ok == !(forall i :: 0 <= i < |old(wq)| ==> old(wq)[i].Some?)
      ensures !ok ==> wq == old(wq)
      ensures ok ==> TakenOn(old(wq), wq, Request(address, At(now), false, false, {}, {}))
    {
      hide BankInv, ReadsInv, CheckedDistinct;
      var i := FirstEmpty(wq);
      if i == |wq| {
        return false;
      }
      var e := Request(address, At(now), false, false, {}, {});
      EnqueueStep(geo, banks, active, wq, rq, writeMode, true, i, e);
      EnqueueDistinct(geo, wq, i, Some(e));
      assert FirstFree(wq, i);
      wq := wq[i := Some(e)];
      ok := true;
    }

    // ---- collisions ----------------------------------------------------------------------

    method FindCollision(q: Queue, lo: nat, hi: nat, address: Bits) returns (i: nat)
      requires lo <= hi <= |q|
      ensures lo <= i <= hi && (i < hi ==> q[i].Some? && IsCollision(geo, q[i].value.address, address))
      ensures forall j :: lo <= j < i && q[j].Some? ==> !IsCollision(geo, q[j].value.address, address)
    {
      i := lo;
      while i < hi && !(q[i].Some? && IsCollision(geo, q[i].value.address, address))
        invariant lo <= i <= hi
        invariant forall j :: lo <= j < i && q[j].Some? ==> !IsCollision(geo, q[j].value.address, address)
      {
        i := i + 1;
      }
    }

    /** Drops every new write whose block another write already covers. */
    method CheckWriteCollision()
      requires Valid()
      modifies this`wq
      ensures Valid() && Covers(geo, old(wq), wq) && CheckedUpTo(old(wq), wq, |old(wq)|) && AllChecked(wq) && Distinct(geo, wq)
    {
      hide BankInv, ReadsInv, CheckedDistinct, Covers, Distinct, AllIdle, Located, Checked;
      LocatedQueues(geo, banks, active, wq, rq, writeMode);
      CoversSelf(geo, wq);
      ghost var before := wq;
      for i := 0 to |wq|
        invariant Valid() && Covers(geo, before, wq) && CheckedUpTo(before, wq, i)
      {
        ghost var mid := wq;
        if wq[i].Some? && !wq[i].value.forwardChecked {
          CheckOneWrite(i, before);
        }
        CheckNext(before, mid, wq, i);
      }
      CheckedAll(before, wq);
      AllDistinct(geo, wq);
    }

    /** Handles the unchecked write in slot `i`; `before` is the queue that still has to be
        covered. */
    method CheckOneWrite(i: nat, ghost before: Queue)
      requires Valid() && i < |wq| && wq[i].Some? && !wq[i].value.forwardChecked && Covers(geo, before, wq)
      modifies this`wq
      ensures Valid() && Covers(geo, before, wq)
      ensures wq == old(wq)[i := None] || wq == old(wq)[i := Some(old(wq)[i].value.(forwardChecked := true))]
    {
      hide BankInv, ReadsInv, CheckedDistinct, Covers;
      var address := wq[i].value.address;
      var found := FindCollision(wq, 0, i, address);
      if found == i {
        found := FindCollision(wq, i + 1, |wq|, address);
      }
      if found < |wq| {
        WriteChange(geo, banks, active, wq, rq, writeMode, i, None);
        CoverDrop(geo, before, wq, i, found);
        EnqueueDistinct(geo, wq, i, None);
        wq := wq[i := None];
      } else {
        WriteChange(geo, banks, active, wq, rq, writeMode, i, Some(wq[i].value.(forwardChecked := true)));
        CoverMark(geo, before, wq, i);
        MarkDistinct(geo, wq, i);
        wq := wq[i := Some(wq[i].value.(forwardChecked := true))];
      }
    }

    /** New reads are answered from the write queue, merged into a read of the same block, or
        kept. */
    method CheckReadCollision()
      requires Valid()
      modifies this`rq, this`released
      ensures Valid() && OnlyEmptied(old(rq), rq) && old(released) <= released
      ensures AllChecked(rq) && Distinct(geo, rq) && Unforwarded(geo, old(rq), rq, wq, |rq|)
      ensures WaitersKept(geo, old(rq), rq, released[|old(released)|..]) && ChecksKept(old(rq), rq)
    {
      hide ChecksKept, BankInv, ReadsInv, CheckedDistinct, Distinct, AllIdle, Covered, Handled, WaitersKept;
      ghost var before := rq;
      LocatedQueues(geo, banks, active, wq, rq, writeMode);
      WaitersSelf(geo, rq);
      ChecksSelf(rq);
      assert released[|released|..] == [];
      for i := 0 to |rq|
        invariant Valid() && OnlyEmptied(before, rq) && old(released) <= released && |before| == |rq|
        invariant forall j :: 0 <= j < i && rq[j].Some? ==> rq[j].value.forwardChecked
        invariant forall j :: i <= j < |rq| && rq[j].Some? ==> before[j].Some? && rq[j].value.forwardChecked == before[j].value.forwardChecked
        invariant Unforwarded(geo, before, rq, wq, i)
        invariant WaitersKept(geo, before, rq, released[|old(released)|..]) && ChecksKept(before, rq)
      {
        ghost var mid, answers := rq, released;
        if rq[i].Some? && !rq[i].value.forwardChecked {
          CheckOneRead(i);
          OneReadChecks(geo, before, mid, rq, i, wq);
          OneReadKeeps(geo, before, mid, rq, answers, released, |old(released)|, i, wq);
        }
        UnforwardedNext(geo, before, mid, rq, wq, i);
      }
      AllDistinct(geo, rq);
    }

    /** Handles the unchecked read in slot `i`. */
    method CheckOneRead(i: nat)
      requires Valid() && i < |rq| && rq[i].Some? && !rq[i].value.forwardChecked
      modifies this`rq, this`released
      ensures Valid() && OnlyEmptied(old(rq), rq) && old(released) <= released
      ensures rq[i].Some? ==> rq[i].value.forwardChecked && rq[i].value.address == old(rq)[i].value.address
      ensures forall j :: 0 <= j < |rq| && j != i && rq[j].Some? ==> SameRead(old(rq)[j], rq[j])
      ensures Covered(geo, wq, old(rq)[i].value.address) ==>
        rq == old(rq)[i := None] && released == old(released) + [ReleaseOf(old(rq)[i].value)]
      ensures !Covered(geo, wq, old(rq)[i].value.address) ==> released == old(released) && Handled(geo, old(rq), rq, i)
    {
      hide BankInv, ReadsInv, CheckedDistinct;
      var e := rq[i].value;
      var forwarding := FindCollision(wq, 0, |wq|, e.address);
      if forwarding < |wq| {
        ReadChange(geo, banks, active, wq, rq, writeMode, i, None);
        EnqueueDistinct(geo, rq, i, None);
        ReleaseStep(geo, rq, released, accepted, i);
        released := released + [ReleaseOf(e)];
        rq := rq[i := None];
        return;
      }
      var found := FindCollision(rq, 0, i, e.address);
      if found == i {
        found := FindCollision(rq, i + 1, |rq|, e.address);
      }
      if found < |rq| {
        ghost var merged := Absorb(rq[found].value, e);
        MergeStep(geo, rq, released, accepted, i, found);
        ReadChange(geo, banks, active, wq, rq, writeMode, found, Some(merged));
        ReadChange(geo, banks, active, wq, rq[found := Some(merged)], writeMode, i, None);
        AbsorbDistinct(geo, rq, found, e);
        EnqueueDistinct(geo, rq[found := Some(merged)], i, None);
        rq := rq[found := Some(Absorb(rq[found].value, e))];
        rq := rq[i := None];
        assert MergedInto(geo, old(rq), rq, i, found);
      } else {
        ReadChange(geo, banks, active, wq, rq, writeMode, i, Some(e.(forwardChecked := true)));
        MarkDistinct(geo, rq, i);
        KeepStep(geo, rq, released, accepted, i, Some(e.(forwardChecked := true)));
        rq := rq[i := Some(e.(forwardChecked := true))];
      }
    }

    // ---- answering -----------------------------------------------------------------------

    /** Warmup answers every queued read at once and forgets the writes. */
    method ReleaseAll()
      requires Valid() && warmup
      modifies this`wq, this`rq, this`released
      ensures Valid() && AllEmpty(wq) && AllEmpty(rq) && |wq| == |old(wq)| && |rq| == |old(rq)|
      ensures released == old(released) + ReleasesOf(old(rq), |old(rq)|)
    {
      hide BankInv, ReadsInv, CheckedDistinct;
      for i := 0 to |rq|
        invariant Valid() && |rq| == |old(rq)| && rq[i..] == old(rq)[i..] && AllEmpty(rq[..i]) && wq == old(wq)
        invariant released == old(released) + ReleasesOf(old(rq), i)
      {
        if rq[i].Some? {
          ReleaseStep(geo, rq, released, accepted, i);
          EmptyIdle(geo, banks, active, wq, rq, writeMode, false, i);
          EnqueueDistinct(geo, rq, i, None);
          released := released + [ReleaseOf(rq[i].value)];
          rq := rq[i := None];
        }
      }
      DropWrites();
    }

    method DropWrites()
      requires Valid() && warmup
      modifies this`wq
      ensures Valid() && AllEmpty(wq) && |wq| == |old(wq)|
    {
      hide BankInv, ReadsInv, CheckedDistinct;
      for i := 0 to |wq|
        invariant Valid() && |wq| == |old(wq)| && AllEmpty(wq[..i])
      {
        if wq[i].Some? {
          EmptyIdle(geo, banks, active, wq, rq, writeMode, true, i);
          EnqueueDistinct(geo, wq, i, None);
          wq := wq[i := None];
        }
      }
    }

    /** Answers the request on the data bus once it is done, and frees its slot and its bank. */
    method FinishDbusRequest()
      requires Valid()
      modifies this`banks, this`active, this`wq, this`rq, this`released
      ensures Valid() && Finished(old(View()), View(), now)
    {
      hide ViewInv, Finished;
      ghost var before := View();
      if active.Some? {
        ActiveInRange(geo, View(), accepted, warmup);
        if banks[active.value].ready <= now {
          var b := active.value;
          var pkt := banks[b].pkt;
          FinishStep(geo, View(), accepted, warmup, now);
          var e := Chosen(wq, rq, pkt.write)[pkt.index].value;
          released := released + [ReleaseOf(e)];
          banks := banks[b := banks[b].(valid := false)];
          if pkt.write {
            wq := wq[pkt.index := None];
          } else {
            rq := rq[pkt.index := None];
          }
          active := None;
          assert View() == FinishedView(before);
        } else {
          NotFinished(View(), now);
        }
      } else {
        NotFinished(View(), now);
      }
    }

    // ---- the write mode ------------------------------------------------------------------

    method CountOccupied(q: Queue) returns (n: nat)
      ensures n == Occupied(q, |q|)
    {
      n := 0;
      for i := 0 to |q|
        invariant n == Occupied(q, i)
      {
        if q[i].Some? {
          n := n + 1;
        }
      }
    }

    /** Turns the bus around when the queues are unbalanced: every bank but the one on the bus
        gives its request back. */
    method SwapWriteMode()
      requires Valid()
      modifies this`banks, this`wq, this`rq, this`writeMode, this`busAvailable
      ensures Valid()
      ensures if Unbalanced(old(wq), old(rq), old(writeMode)) then Swapped(old(View()), View(), now, t.tCAS)
              else View() == old(View())
      ensures busAvailable == if Unbalanced(old(wq), old(rq), old(writeMode))
                              then TurnAround(old(banks), old(active), now, t) else old(busAvailable)
    {
      hide ViewInv, Swapped, SwappedUpTo, Occupied;
      ghost var before := View();
      var writeCount := CountOccupied(wq);
      var readCount := CountOccupied(rq);
      if (!writeMode && (writeCount >= |wq| * 7 / 8 || (readCount == 0 && writeCount > 0)))
         || (writeMode && (writeCount == 0 || (readCount > 0 && writeCount < |wq| * 6 / 8))) {
        SwapBegin(before, now, t.tCAS);
        for b := 0 to |banks|
          modifies this`banks, this`wq, this`rq
          invariant Valid() && SwappedUpTo(before, View(), now, t.tCAS, b) && |banks| == |before.banks|
          invariant active == before.active && writeMode == before.writeMode
        {
          if active != Some(b) && banks[b].valid {
            SwapStep(geo, before, View(), accepted, warmup, now, t.tCAS, b);
            var pkt := banks[b].pkt;
            banks := banks[b := ResetBank(banks[b], now, t.tCAS)];
            if pkt.write {
              wq := wq[pkt.index := Requeue(wq[pkt.index], now)];
            } else {
              rq := rq[pkt.index := Requeue(rq[pkt.index], now)];
            }
          } else {
            SwapSkip(before, View(), now, t.tCAS, b);
          }
        }
        SwapEnd(geo, before, View(), accepted, warmup, now, t.tCAS);
        if active.Some? {
          ActiveInRange(geo, View(), accepted, warmup);
          busAvailable := banks[active.value].ready + t.turnAround;
        } else {
          busAvailable := now + t.turnAround;
        }
        writeMode := !writeMode;
      }
    }

    // ---- refresh -------------------------------------------------------------------------

    /** Starts and ends refreshes. Afterwards no idle bank has one pending. */
    method ScheduleRefresh()
      requires Valid()
      modifies this`banks, this`lastRefresh, this`refreshRow
      ensures Valid() && RefreshTaken(banks)
      ensures lastRefresh == if RefreshDue(now, old(lastRefresh), t) then now else old(lastRefresh)
      ensures refreshRow == if RefreshDue(now, old(lastRefresh), t) then WrapRow(old(refreshRow) + t.rowsPerRefresh, t.rows) else old(refreshRow)
      ensures AllRefreshed(old(View()), View(), RefreshDue(now, old(lastRefresh), t), now, t.tRFC)
    {
      hide ViewInv;
      ghost var before := View();
      var due := now >= lastRefresh + t.tREF;
      if due {
        lastRefresh := now;
        refreshRow := refreshRow + t.rowsPerRefresh;
        if refreshRow >= t.rows {
          refreshRow := refreshRow - t.rows;
        }
      }
      for b := 0 to |banks|
        modifies this`banks
        invariant |banks| == |before.banks|
        invariant forall c :: 0 <= c < b ==> banks[c] == Refreshed(before.banks[c], due, now, t.tRFC)
        invariant forall c :: b <= c < |banks| ==> banks[c] == before.banks[c]
      {
        var bank := banks[b];
        if due {
          bank := bank.(needRefresh := true);
        }
        if bank.needRefresh && !bank.valid {
          bank := bank.(ready := now + t.tRFC, needRefresh := false, underRefresh := true);
        } else if bank.underRefresh && bank.ready <= now {
          bank := bank.(underRefresh := false, openRow := None);
        }
        banks := banks[b := bank];
      }
      RefreshStep(geo, before, View(), accepted, warmup, due, now, t.tRFC);
    }

    // ---- the data bus --------------------------------------------------------------------

    /** The busy bank that is ready first; an idle bank only if all are idle. */
    method NextBank() returns (next: nat)
      requires |banks| >= 1
      ensures IsNext(banks, next)
    {
      next := 0;
      for b := 1 to |banks|
        invariant IsNext(banks[..b], next)
      {
        if !banks[next].valid || (banks[b].valid && banks[b].ready < banks[next].ready) {
          next := b;
        }
      }
      assert banks[..|banks|] == banks;
    }

    /** Puts the next busy bank on the data bus if that is free. */
    method PopulateDbus() returns (next: nat)
      requires Valid()
      modifies this`banks, this`active, this`bankgroupReady
      ensures Valid() && IsNext(old(banks), next)
      ensures !BusFree(old(View()), next, busAvailable, now) ==>
        unchanged(`banks) && unchanged(`active) && unchanged(`bankgroupReady)
      ensures BusFree(old(View()), next, busAvailable, now) ==> Populated(geo, t, now, old(View()), View(), old(bankgroupReady), bankgroupReady, next)
    {
      hide ViewInv, IsNext, Populated, IsBankgroupOf, BankgroupRequestIndex, Pow2;
      SomeBank(geo, View(), accepted, warmup);
      next := NextBank();
      NextInRange(banks, next);
      if banks[next].valid && banks[next].ready <= now && active.None? && busAvailable <= now {
        ServedBy(geo, View(), accepted, warmup, next);
        var pkt := banks[next].pkt;
        var address := Chosen(wq, rq, pkt.write)[pkt.index].value.address;
        var group := BankgroupRequestIndex(geo, address);
        var start := if bankgroupReady[group] > now then bankgroupReady[group] else now;
        PopulateStep(geo, t, now, View(), accepted, warmup, bankgroupReady, next, group);
        banks := banks[next := banks[next].(ready := start + t.busReturn)];
        active := Some(next);
        bankgroupReady := bankgroupReady[group := now + t.busReturn + t.bankgroupStall];
      }
    }

    // ---- serving requests ----------------------------------------------------------------

    /** The waiting request to serve next: one whose bank is idle if there is one, and among
        those the one that waits longest. */
    method SchedulePacket() returns (best: nat)
      requires Valid()
      ensures IsBest(geo, View(), best)
    {
      QueueShape(geo, View(), accepted, warmup);
      hide ViewInv, NextSchedule, BestUpTo, BankCount;
      var q := Chosen(wq, rq, writeMode);
      BestBegin(geo, View());
      best := 0;
      for i := 1 to |q|
        invariant best < i && BestUpTo(geo, View(), i, best)
      {
        BestStep(geo, View(), i, best);
        if NextSchedule(geo, banks, q[i], q[best]) {
          best := i;
        }
      }
    }

    /** Hands request `i` of the current queue to its bank, if the request is ready and the
        bank neither busy nor under refresh. */
    method ServicePacket(i: nat)
      requires Valid() && i < |Chosen(wq, rq, writeMode)| && RefreshTaken(banks)
      requires Settled(wq, warmup) && Settled(rq, warmup)
      modifies this`banks, this`wq, this`rq
      ensures Valid() && RefreshTaken(banks) && Settled(wq, warmup) && Settled(rq, warmup)
      ensures View() == AfterService(geo, t, now, old(View()), i)
    {
      hide ViewInv, RefreshTaken, Settled, Serviceable, ServicedView, AfterService, QueueReady, Pow2, Chosen;
      ServiceAll(geo, t, now, View(), accepted, warmup, i);
      QueueShape(geo, View(), accepted, warmup);
      Offer(i);
    }

    /** Offers request `i` to its bank. */
    method Offer(i: nat)
      requires QueueReady(geo, View()) && i < |Chosen(wq, rq, writeMode)|
      modifies this`banks, this`wq, this`rq
      ensures View() == AfterService(geo, t, now, old(View()), i)
    {
      hide Serviceable, ServicedView, QueueReady, Chosen;
      var ok, b := CanServe(i);
      if ok {
        Serve(i, b);
      }
    }

    /** Whether request `i` can be handed to its bank `b` now. */
    method CanServe(i: nat) returns (ok: bool, b: nat)
      requires QueueReady(geo, View()) && i < |Chosen(wq, rq, writeMode)|
      ensures ok == Serviceable(geo, View(), now, i)
      ensures ok ==> |Chosen(wq, rq, writeMode)[i].value.address| == ADDRESS_BITS
      ensures ok ==> b == BankRequestIndex(geo, Chosen(wq, rq, writeMode)[i].value.address)
    {
      hide BankRequestIndex, BankCount, Serviceable;
      ServiceableIs(geo, View(), now, i);
      ok, b := false, 0;
      var pkt := Chosen(wq, rq, writeMode)[i];
      if pkt.Some? && pkt.value.ready.By(now) {
        BankIndexInRange(geo, pkt.value.address);
        b := BankRequestIndex(geo, pkt.value.address);
        ok := !banks[b].valid && !banks[b].underRefresh;
      }
    }

    /** Bank `b` takes on request `i`. */
    method Serve(i: nat, b: nat)
      requires Serviceable(geo, View(), now, i)
      requires |Chosen(wq, rq, writeMode)[i].value.address| == ADDRESS_BITS
      requires b == BankRequestIndex(geo, Chosen(wq, rq, writeMode)[i].value.address)
      modifies this`banks, this`wq, this`rq
      ensures View() == ServicedView(geo, t, now, old(View()), i)
    {
      hide BankRequestIndex, BankCount, Decode;
      var row := Decode(geo, Chosen(wq, rq, writeMode)[i].value.address).row;
      var hit := banks[b].openRow == Some(row);
      var delay := if banks[b].openRow.Some? then t.tRP + t.tRCD else t.tRCD;
      banks := banks[b := Bank(true, hit, false, false, Some(row), now + t.tCAS + (if hit then 0 else delay), Slot(writeMode, i))];
      if writeMode {
        wq := wq[i := Schedule(wq[i])];
      } else {
        rq := rq[i := Schedule(rq[i])];
      }
    }

    /** Handles the requests that need no bank: all of them in warmup, else those that collide. */
    method Settle() returns (ghost drained: Snapshot)
      requires Valid()
      modifies this`wq, this`rq, this`released
      ensures Valid() && Settled(wq, warmup) && Settled(rq, warmup)
      ensures if warmup then Drained(old(View()), drained) else drained == old(View())
      ensures Sifted(geo, drained, View())
    {
      hide ViewInv, AllEmpty, AllChecked, CheckedUpTo, OnlyEmptied, Distinct, Covers, ReleasesOf, Pow2, WaitersKept, Unforwarded, ChecksKept;
      if warmup {
        ReleaseAll();
      }
      drained := View();
      CheckWriteCollision();
      CheckReadCollision();
      CheckSettles(drained, View(), warmup);
    }

    /** The mode and the refreshes. */
    method Turn(ghost c: Trace) returns (ghost c': Trace)
      requires Valid() && Settled(wq, warmup) && Settled(rq, warmup) && c.finished == View()
      modifies this`banks, this`wq, this`rq, this`writeMode, this`busAvailable, this`lastRefresh, this`refreshRow
      ensures Valid() && RefreshTaken(banks) && Settled(wq, warmup) && Settled(rq, warmup)
      ensures c' == c.(swapped := c'.swapped, refreshed := View(), due := RefreshDue(now, old(lastRefresh), t))
      ensures if Unbalanced(c.finished.wq, c.finished.rq, c.finished.writeMode) then Swapped(c.finished, c'.swapped, now, t.tCAS)
              else c'.swapped == c.finished
      ensures AllRefreshed(c'.swapped, View(), c'.due, now, t.tRFC)
    {
      hide ViewInv, Settled, Chosen, Swapped, RefreshTaken, AllRefreshed;
      hide Unbalanced, AllIdle, TurnAround, Refreshed, RefreshDue, WrapRow, Pow2;
      c' := c.(due := RefreshDue(now, lastRefresh, t));
      SwapWriteMode();
      c' := c'.(swapped := View());
      if c'.swapped != c.finished {
        SwapSettles(c.finished, c'.swapped, now, t.tCAS, warmup);
      }
      ScheduleRefresh();
      c' := c'.(refreshed := View());
      RefreshFrame(c'.swapped, c'.refreshed, c'.due, now, t.tRFC);
    }

    /** The data bus and the bank for the chosen packet. */
    method Advance(ghost c: Trace) returns (ghost c': Trace)
      requires Valid() && RefreshTaken(banks) && Settled(wq, warmup) && Settled(rq, warmup) && c.refreshed == View()
      modifies this`banks, this`active, this`wq, this`rq, this`bankgroupReady
      ensures Valid() && RefreshTaken(banks) && Settled(wq, warmup) && Settled(rq, warmup)
      ensures c' == c.(populated := c'.populated, next := c'.next, packet := c'.packet, busAvailable := busAvailable,
                       cooldown := old(bankgroupReady), cooldown' := bankgroupReady)
      ensures IsNext(c.refreshed.banks, c'.next)
      ensures if BusFree(c.refreshed, c'.next, busAvailable, now)
        then Populated(geo, t, now, c.refreshed, c'.populated, c'.cooldown, c'.cooldown', c'.next)
        else c'.populated == c.refreshed && c'.cooldown' == c'.cooldown
      ensures IsBest(geo, c'.populated, c'.packet) && View() == AfterService(geo, t, now, c'.populated, c'.packet)
    {
      hide ViewInv, Settled, Chosen, RefreshTaken, IsNext, Populated, IsBest, BusFree;
      hide Serviceable, ServicedView, AfterService, AllIdle, Pow2;
      var next := PopulateDbus();
      c' := c.(populated := View(), next := next, busAvailable := busAvailable, cooldown := old(bankgroupReady), cooldown' := bankgroupReady);
      if BusFree(c.refreshed, next, busAvailable, now) {
        PopulateTaken(geo, t, now, c.refreshed, View(), c'.cooldown, bankgroupReady, next);
      }
      var packet := SchedulePacket();
      c' := c'.(packet := packet);
      BestInRange(geo, View(), packet);
      ServicePacket(packet);
    }

    /** One cycle of the channel. */
    method Operate() returns (ghost c: Trace)
      requires Valid()
      modifies this`banks, this`active, this`wq, this`rq, this`released, this`writeMode, this`busAvailable,
               this`bankgroupReady, this`lastRefresh, this`refreshRow
      ensures Valid() && RefreshTaken(banks) && old(released) <= released
      ensures Settled(wq, warmup) && Settled(rq, warmup)
      ensures Cycle(geo, t, now, warmup, old(View()), c, View())
      ensures c.busAvailable == busAvailable && c.cooldown == old(bankgroupReady) && c.cooldown' == bankgroupReady
      ensures c.due == RefreshDue(now, old(lastRefresh), t)
    {
      hide ViewInv, Settled, Finished, RefreshTaken, Sifted, Drained, Swapped, IsNext, Populated, IsBest, AllRefreshed, BusFree;
      hide Unbalanced, AfterService, RefreshDue, Pow2;
      ghost var start := View();
      ghost var drained := Settle();
      ghost var sifted := View();
      FinishDbusRequest();
      FinishSettles(sifted, View(), now, warmup);
      c := Trace(drained, sifted, View(), View(), View(), View(), 0, 0, 0, [], [], false);
      c := Turn(c);
      c := Advance(c);
      ReleasedGrows(geo, warmup, start, c, now);
    }

    /** A phase begins: warmup may end but not start again. The clock moves on. */
    method Tick(warmup': bool)
      requires Valid() && (warmup' ==> warmup)
      modifies this`now, this`warmup
      ensures Valid() && now == old(now) + 1 && warmup == warmup'
    {
      hide BankInv, ReadsInv, CheckedDistinct;
      now := now + 1;
      warmup := warmup';
    }
  }

  lemma ChecksSelf(q: Queue)
    ensures ChecksKept(q, q)
  {
  }

  /** Handling one read leaves those that were checked before in their slots. */
  lemma OneReadChecks(g: Geometry, before: Queue, q: Queue, q': Queue, i: nat, wq: Queue)
    requires i < |q| && q[i].Some? && !q[i].value.forwardChecked && ChecksKept(before, q)
    requires Covered(g, wq, q[i].value.address) ==> q' == q[i := None]
    requires !Covered(g, wq, q[i].value.address) ==> Handled(g, q, q', i)
    ensures ChecksKept(before, q')
  {
    hide Covered, IsCollision;
    if !Covered(g, wq, q[i].value.address) {
      if j :| 0 <= j < |q| && j != i && MergedInto(g, q, q', i, j) {
        assert q'[j] == Some(Absorb(q[j].value, q[i].value));
      }
    }
  }

  /** Handling one read loses no waiter. */
  lemma OneReadKeeps(g: Geometry, before: Queue, q: Queue, q': Queue, released: seq<Release>, released': seq<Release>, start: nat,
                     i: nat, wq: Queue)
    requires i < |q| && q[i].Some? && start <= |released| && WaitersKept(g, before, q, released[start..])
    requires Covered(g, wq, q[i].value.address) ==> q' == q[i := None] && released' == released + [ReleaseOf(q[i].value)]
    requires !Covered(g, wq, q[i].value.address) ==> released' == released && Handled(g, q, q', i)
    ensures start <= |released'| && WaitersKept(g, before, q', released'[start..])
  {
    hide WaitersKept, Covered;
    if Covered(g, wq, q[i].value.address) {
      WaitersReleased(g, before, q, released[start..], i);
      assert released'[start..] == released[start..] + [ReleaseOf(q[i].value)];
    } else if j :| 0 <= j < |q| && j != i && MergedInto(g, q, q', i, j) {
      WaitersMerged(g, before, q, released[start..], i, j);
    } else {
      WaitersMarked(g, before, q, released[start..], i);
    }
  }

  /** While no bank is busy any slot may be emptied. */
  lemma EmptyIdle(g: Geometry, banks: seq<Bank>, active: Option<nat>, wq: Queue, rq: Queue, writeMode: bool, write: bool, i: nat)
    requires BankInv(g, banks, active, wq, rq, writeMode) && AllIdle(banks) && i < |Chosen(wq, rq, write)|
    ensures write ==> BankInv(g, banks, active, wq[i := None], rq, writeMode)
    ensures !write ==> BankInv(g, banks, active, wq, rq[i := None], writeMode)
  {
    hide BankRequestIndex, BankCount;
  }

  lemma ActiveInRange(g: Geometry, v: Snapshot, accepted: seq<Accepted>, warmup: bool)
    requires ViewInv(g, v, accepted, warmup) && v.active.Some?
    ensures v.active.value < |v.banks| && v.banks[v.active.value].valid
  {
  }

  lemma NotFinished(v: Snapshot, now: nat)
    requires !BusDone(v.banks, v.active, now)
    ensures Finished(v, v, now)
  {
  }

  lemma FinishStep(g: Geometry, v: Snapshot, accepted: seq<Accepted>, warmup: bool, now: nat)
    requires ViewInv(g, v, accepted, warmup) && BusDone(v.banks, v.active, now)
    ensures v.OnBus() && ViewInv(g, FinishedView(v), accepted, warmup) && Finished(v, FinishedView(v), now)
  {
    hide BankInv, ReadsInv, CheckedDistinct;
    var b := v.active.value;
    ActiveInRange(g, v, accepted, warmup);
    ServedRequest(g, v.banks, v.active, v.wq, v.rq, v.writeMode, b);
    var v' := FinishedView(v);
    var pkt := v.banks[b].pkt;
    VacateStep(g, v.banks, v.active, v.wq, v.rq, v'.wq, v'.rq, v.writeMode, b, v.banks[b].(valid := false), None);
    if pkt.write {
      SilentReleaseStep(g, v.rq, v.released, accepted, ReleaseOf(v.wq[pkt.index].value));
      EnqueueDistinct(g, v.wq, pkt.index, None);
    } else {
      ReleaseStep(g, v.rq, v.released, accepted, pkt.index);
      EnqueueDistinct(g, v.rq, pkt.index, None);
    }
  }

  lemma SwapBegin(v: Snapshot, now: nat, tCAS: nat)
    ensures SwappedUpTo(v, v, now, tCAS, 0)
  {
  }

  lemma SwapSkip(v: Snapshot, m: Snapshot, now: nat, tCAS: nat, b: nat)
    requires SwappedUpTo(v, m, now, tCAS, b) && b < |m.banks| && (m.active == Some(b) || !m.banks[b].valid)
    ensures SwappedUpTo(v, m, now, tCAS, b + 1)
  {
  }

  /** The state after bank `b` gave its request back. */
  ghost function GiveBack(v: Snapshot, b: nat, now: nat, tCAS: nat): Snapshot
    requires b < |v.banks| && v.banks[b].pkt.index < |Chosen(v.wq, v.rq, v.banks[b].pkt.write)|
  {
    var pkt := v.banks[b].pkt;
    v.(banks := v.banks[b := ResetBank(v.banks[b], now, tCAS)],
       wq := if pkt.write then v.wq[pkt.index := Requeue(v.wq[pkt.index], now)] else v.wq,
       rq := if pkt.write then v.rq else v.rq[pkt.index := Requeue(v.rq[pkt.index], now)])
  }

  lemma RequeueDistinct(g: Geometry, q: Queue, i: nat, now: nat)
    requires CheckedDistinct(g, q) && i < |q|
    ensures CheckedDistinct(g, q[i := Requeue(q[i], now)])
  {
  }

  lemma GiveBackInv(g: Geometry, m: Snapshot, accepted: seq<Accepted>, warmup: bool, now: nat, tCAS: nat, b: nat)
    requires ViewInv(g, m, accepted, warmup) && b < |m.banks| && m.banks[b].valid && m.active != Some(b)
    ensures m.banks[b].pkt.index < |Chosen(m.wq, m.rq, m.banks[b].pkt.write)|
    ensures Busy(Chosen(m.wq, m.rq, m.banks[b].pkt.write)[m.banks[b].pkt.index])
    ensures ViewInv(g, GiveBack(m, b, now, tCAS), accepted, warmup)
  {
    hide BankInv, ReadsInv, CheckedDistinct;
    ServedRequest(g, m.banks, m.active, m.wq, m.rq, m.writeMode, b);
    var pkt, bank, m' := m.banks[b].pkt, ResetBank(m.banks[b], now, tCAS), GiveBack(m, b, now, tCAS);
    var e := Requeue(Chosen(m.wq, m.rq, pkt.write)[pkt.index], now);
    VacateStep(g, m.banks, m.active, m.wq, m.rq, m'.wq, m'.rq, m.writeMode, b, bank, e);
    if pkt.write {
      RequeueDistinct(g, m.wq, pkt.index, now);
    } else {
      RequeueDistinct(g, m.rq, pkt.index, now);
      KeepStep(g, m.rq, m.released, accepted, pkt.index, e);
    }
  }

  lemma SwapStep(g: Geometry, v: Snapshot, m: Snapshot, accepted: seq<Accepted>, warmup: bool, now: nat, tCAS: nat, b: nat)
    requires ViewInv(g, m, accepted, warmup) && SwappedUpTo(v, m, now, tCAS, b)
    requires b < |m.banks| && m.banks[b].valid && m.active != Some(b)
    ensures m.banks[b].pkt.index < |Chosen(m.wq, m.rq, m.banks[b].pkt.write)|
    ensures ViewInv(g, GiveBack(m, b, now, tCAS), accepted, warmup)
    ensures SwappedUpTo(v, GiveBack(m, b, now, tCAS), now, tCAS, b + 1)
  {
    GiveBackInv(g, m, accepted, warmup, now, tCAS, b);
    hide ViewInv;
    var pkt := m.banks[b].pkt;
    BankResetStep(v, m, GiveBack(m, b, now, tCAS), now, tCAS, b);
    hide BanksReset;
    if pkt.write {
      RequeueStep(v.wq, m.wq, pkt.index, now);
    } else {
      RequeueStep(v.rq, m.rq, pkt.index, now);
    }
    hide PartlyRequeued;
  }

  lemma BankResetStep(v: Snapshot, m: Snapshot, m': Snapshot, now: nat, tCAS: nat, b: nat)
    requires BanksReset(v, m, now, tCAS, b) && m.active == v.active
    requires b < |m.banks| && m.banks[b].valid && m.active != Some(b)
    requires m'.banks == m.banks[b := ResetBank(m.banks[b], now, tCAS)]
    ensures BanksReset(v, m', now, tCAS, b + 1)
  {
  }

  lemma RequeueStep(q: Queue, q': Queue, i: nat, now: nat)
    requires PartlyRequeued(q, q', now) && i < |q'| && Busy(q'[i])
    ensures PartlyRequeued(q, q'[i := Requeue(q'[i], now)], now)
  {
  }

  /** A slot is scheduled after the swap exactly when it is the one on the bus. */
  lemma SwapEnds(g: Geometry, v: Snapshot, m: Snapshot, accepted: seq<Accepted>, warmup: bool, now: nat, tCAS: nat, write: bool)
    requires ViewInv(g, v, accepted, warmup) && ViewInv(g, m, accepted, warmup) && SwappedUpTo(v, m, now, tCAS, |v.banks|)
    ensures Requeued(v, Chosen(v.wq, v.rq, write), Chosen(m.wq, m.rq, write), write, now)
  {
    hide BankRequestIndex, BankCount, ReadsInv, CheckedDistinct;
    var q, q' := Chosen(v.wq, v.rq, write), Chosen(m.wq, m.rq, write);
    if v.active.Some? {
      assert PointsTo(g, m.wq, m.rq, m.banks[v.active.value], v.active.value);
    }
    assert Served(g, m.banks, q', write);
  }

  /** A bank that gives its request back to a queue keeps its row open exactly if the access would
      not have been over within a column access; no other bank is touched. */
  lemma SwapKeepsRows(v: Snapshot, v': Snapshot, now: nat, tCAS: nat, b: nat)
    requires Swapped(v, v', now, tCAS) && b < |v.banks|
    ensures b < |v'.banks| && (!v.banks[b].valid || v.active == Some(b) ==> v'.banks[b] == v.banks[b])
    ensures v.banks[b].valid && v.active != Some(b) ==>
      !v'.banks[b].valid && (v'.banks[b].openRow.Some? <==> v.banks[b].openRow.Some? && v.banks[b].ready >= now + tCAS)
      && (v'.banks[b].openRow.Some? ==> v'.banks[b].openRow == v.banks[b].openRow)
  {
    hide Requeued;
  }

  lemma SwapEnd(g: Geometry, v: Snapshot, m: Snapshot, accepted: seq<Accepted>, warmup: bool, now: nat, tCAS: nat)
    requires ViewInv(g, v, accepted, warmup) && ViewInv(g, m, accepted, warmup) && SwappedUpTo(v, m, now, tCAS, |v.banks|)
    ensures ViewInv(g, m.(writeMode := !m.writeMode), accepted, warmup)
    ensures Swapped(v, m.(writeMode := !m.writeMode), now, tCAS)
    ensures TurnAroundBank(v, m)
  {
    SwapEnds(g, v, m, accepted, warmup, now, tCAS, true);
    SwapEnds(g, v, m, accepted, warmup, now, tCAS, false);
    hide BankInv, ReadsInv, CheckedDistinct, Requeued;
    FlipStep(g, m.banks, m.active, m.wq, m.rq, m.writeMode);
  }

  /** The bank on the bus is left alone. */
  ghost predicate TurnAroundBank(v: Snapshot, m: Snapshot) {
    v.active.Some? && v.active.value < |v.banks| ==> |m.banks| == |v.banks| && m.banks[v.active.value] == v.banks[v.active.value]
  }

  lemma RefreshStep(g: Geometry, v: Snapshot, v': Snapshot, accepted: seq<Accepted>, warmup: bool, due: bool, now: nat, tRFC: nat)
    requires ViewInv(g, v, accepted, warmup) && v' == v.(banks := v'.banks) && |v'.banks| == |v.banks|
    requires forall b :: 0 <= b < |v.banks| ==> v'.banks[b] == Refreshed(v.banks[b], due, now, tRFC)
    ensures ViewInv(g, v', accepted, warmup) && RefreshTaken(v'.banks)
  {
    hide ReadsInv, CheckedDistinct;
    BusyUnrefreshed(g, v, accepted, warmup);
    hide BankInv;
    BankFrame(g, v.banks, v'.banks, v.active, v.active, v.wq, v.rq, v.writeMode);
  }

  /** No busy bank is under refresh. */
  lemma BusyUnrefreshed(g: Geometry, v: Snapshot, accepted: seq<Accepted>, warmup: bool)
    requires ViewInv(g, v, accepted, warmup)
    ensures forall b :: 0 <= b < |v.banks| && v.banks[b].valid ==> !v.banks[b].underRefresh
  {
  }

  lemma SomeBank(g: Geometry, v: Snapshot, accepted: seq<Accepted>, warmup: bool)
    requires ViewInv(g, v, accepted, warmup)
    ensures |v.banks| >= 1 && g.Valid()
  {
    hide ReadsInv, CheckedDistinct;
  }

  lemma ServedBy(g: Geometry, v: Snapshot, accepted: seq<Accepted>, warmup: bool, b: nat)
    requires ViewInv(g, v, accepted, warmup) && b < |v.banks| && v.banks[b].valid
    ensures g.Valid() && v.banks[b].pkt.index < |Chosen(v.wq, v.rq, v.banks[b].pkt.write)|
    ensures Busy(Chosen(v.wq, v.rq, v.banks[b].pkt.write)[v.banks[b].pkt.index])
    ensures |Chosen(v.wq, v.rq, v.banks[b].pkt.write)[v.banks[b].pkt.index].value.address| == ADDRESS_BITS
    ensures var address := Chosen(v.wq, v.rq, v.banks[b].pkt.write)[v.banks[b].pkt.index].value.address;
      IsBankgroupOf(g, v, b, BankgroupRequestIndex(g, address)) && BankgroupRequestIndex(g, address) < Pow2(g.bankgroup + g.rank)
  {
    hide ReadsInv, CheckedDistinct, BankInv, BankgroupRequestIndex, Pow2;
    ServedRequest(g, v.banks, v.active, v.wq, v.rq, v.writeMode, b);
    SomeBank(g, v, accepted, warmup);
    BankgroupIndexInRange(g, Chosen(v.wq, v.rq, v.banks[b].pkt.write)[v.banks[b].pkt.index].value.address);
  }

  lemma NextInRange(banks: seq<Bank>, next: nat)
    requires IsNext(banks, next)
    ensures next < |banks|
  {
  }

  lemma PopulateStep(g: Geometry, t: Timing, now: nat, v: Snapshot, accepted: seq<Accepted>, warmup: bool,
                     bankgroupReady: seq<nat>, next: nat, group: nat)
    requires ViewInv(g, v, accepted, warmup) && next < |v.banks| && v.banks[next].valid && v.active.None?
    requires IsBankgroupOf(g, v, next, group) && group < |bankgroupReady|
    ensures ViewInv(g, PopulatedView(v, next, Max(bankgroupReady[group], now) + t.busReturn), accepted, warmup)
    ensures Populated(g, t, now, v, PopulatedView(v, next, Max(bankgroupReady[group], now) + t.busReturn),
                      bankgroupReady, bankgroupReady[group := now + t.busReturn + t.bankgroupStall], next)
  {
    hide ReadsInv, CheckedDistinct, BankInv, IsBankgroupOf;
    var ready := Max(bankgroupReady[group], now) + t.busReturn;
    BankFrame(g, v.banks, v.banks[next := v.banks[next].(ready := ready)], v.active, Some(next), v.wq, v.rq, v.writeMode);
  }

  lemma QueueShape(g: Geometry, v: Snapshot, accepted: seq<Accepted>, warmup: bool)
    requires ViewInv(g, v, accepted, warmup)
    ensures QueueReady(g, v)
  {
    hide ReadsInv, CheckedDistinct, BankRequestIndex;
  }

  lemma BestBegin(g: Geometry, v: Snapshot)
    requires QueueReady(g, v)
    ensures BestUpTo(g, v, 1, 0)
  {
    hide BankRequestIndex, BankCount;
  }

  lemma BestStep(g: Geometry, v: Snapshot, i: nat, best: nat)
    requires BestUpTo(g, v, i, best) && i < |Chosen(v.wq, v.rq, v.writeMode)|
    ensures NextSchedule(g, v.banks, Chosen(v.wq, v.rq, v.writeMode)[i], Chosen(v.wq, v.rq, v.writeMode)[best]) ==> BestUpTo(g, v, i + 1, i)
    ensures !NextSchedule(g, v.banks, Chosen(v.wq, v.rq, v.writeMode)[i], Chosen(v.wq, v.rq, v.writeMode)[best]) ==> BestUpTo(g, v, i + 1, best)
  {
    hide BankRequestIndex, BankCount;
    var q := Chosen(v.wq, v.rq, v.writeMode);
    if Waiting(q[i]) && Waiting(q[best]) {
      BankIndexInRange(g, q[i].value.address);
      BankIndexInRange(g, q[best].value.address);
    }
  }

  lemma BestInRange(g: Geometry, v: Snapshot, best: nat)
    requires IsBest(g, v, best)
    ensures best < |Chosen(v.wq, v.rq, v.writeMode)|
  {
  }

  lemma PopulateTaken(g: Geometry, t: Timing, now: nat, v: Snapshot, v': Snapshot,
                      bankgroupReady: seq<nat>, bankgroupReady': seq<nat>, next: nat)
    requires Populated(g, t, now, v, v', bankgroupReady, bankgroupReady', next) && RefreshTaken(v.banks)
    ensures RefreshTaken(v'.banks) && v'.wq == v.wq && v'.rq == v.rq
  {
    hide IsBankgroupOf;
  }

  lemma ServiceAll(g: Geometry, t: Timing, now: nat, v: Snapshot, accepted: seq<Accepted>, warmup: bool, i: nat)
    requires ViewInv(g, v, accepted, warmup) && RefreshTaken(v.banks) && Settled(v.wq, warmup) && Settled(v.rq, warmup)
    ensures var v' := AfterService(g, t, now, v, i);
      && ViewInv(g, v', accepted, warmup) && RefreshTaken(v'.banks) && Settled(v'.wq, warmup) && Settled(v'.rq, warmup)
      && (Serviceable(g, v, now, i) ==> v' == ServicedView(g, t, now, v, i)) && (!Serviceable(g, v, now, i) ==> v' == v)
  {
    hide ViewInv, RefreshTaken, Settled, Serviceable, ServicedView;
    if Serviceable(g, v, now, i) {
      ServeStep(g, t, now, v, accepted, warmup, i);
    }
  }

  lemma ServiceableIs(g: Geometry, v: Snapshot, now: nat, i: nat)
    requires QueueReady(g, v) && i < |Chosen(v.wq, v.rq, v.writeMode)|
    ensures var e := Chosen(v.wq, v.rq, v.writeMode)[i];
      Serviceable(g, v, now, i) <==>
        && e.Some? && e.value.ready.By(now)
        && BankRequestIndex(g, e.value.address) < |v.banks|
        && !v.banks[BankRequestIndex(g, e.value.address)].valid && !v.banks[BankRequestIndex(g, e.value.address)].underRefresh
  {
    hide BankRequestIndex, BankCount;
  }

  lemma ServeStep(g: Geometry, t: Timing, now: nat, v: Snapshot, accepted: seq<Accepted>, warmup: bool, i: nat)
    requires ViewInv(g, v, accepted, warmup) && Serviceable(g, v, now, i) && RefreshTaken(v.banks)
    requires Settled(v.wq, warmup) && Settled(v.rq, warmup)
    ensures ViewInv(g, ServicedView(g, t, now, v, i), accepted, warmup)
    ensures Settled(ServicedView(g, t, now, v, i).wq, warmup) && Settled(ServicedView(g, t, now, v, i).rq, warmup)
    ensures RefreshTaken(ServicedView(g, t, now, v, i).banks)
  {
    hide ReadsInv, BankInv, CheckedDistinct, BankRequestIndex, BankCount, Decode;
    var v' := ServicedView(g, t, now, v, i);
    var e := Chosen(v.wq, v.rq, v.writeMode)[i].value;
    var b := BankRequestIndex(g, e.address);
    ServiceStep(g, v.banks, v.active, v.wq, v.rq, v'.wq, v'.rq, v.writeMode, i, b, v'.banks[b]);
    if v.writeMode {
      ScheduleDistinct(g, v.wq, i);
    } else {
      ScheduleDistinct(g, v.rq, i);
      KeepStep(g, v.rq, v.released, accepted, i, Schedule(v.rq[i]));
    }
  }

  /** Serving a packet overwrites no pending refresh, since none is pending on an idle bank. */
  lemma ServiceKeepsRefresh(g: Geometry, t: Timing, now: nat, v: Snapshot, i: nat, b: nat)
    requires Serviceable(g, v, now, i) && RefreshTaken(v.banks) && b < |v.banks|
    ensures ServicedView(g, t, now, v, i).banks[b].needRefresh == v.banks[b].needRefresh
  {
    hide BankRequestIndex, BankCount, Decode;
  }

  lemma ScheduleDistinct(g: Geometry, q: Queue, i: nat)
    requires CheckedDistinct(g, q) && i < |q|
    ensures CheckedDistinct(g, q[i := Schedule(q[i])])
  {
  }

  lemma CheckSettles(v: Snapshot, v': Snapshot, warmup: bool)
    requires CheckedUpTo(v.wq, v'.wq, |v.wq|) && OnlyEmptied(v.rq, v'.rq) && AllChecked(v'.wq) && AllChecked(v'.rq)
    requires warmup ==> AllEmpty(v.wq) && AllEmpty(v.rq)
    ensures Settled(v'.wq, warmup) && Settled(v'.rq, warmup)
  {
  }

  lemma RefreshFrame(v: Snapshot, v': Snapshot, due: bool, now: nat, tRFC: nat)
    requires AllRefreshed(v, v', due, now, tRFC)
    ensures v' == v.(banks := v'.banks)
  {
  }

  lemma ReleasedGrows(g: Geometry, warmup: bool, v: Snapshot, c: Trace, now: nat)
    requires if warmup then Drained(v, c.drained) else c.drained == v
    requires Sifted(g, c.drained, c.sifted) && Finished(c.sifted, c.finished, now)
    ensures v.released <= c.finished.released
  {
  }

  lemma FinishSettles(v: Snapshot, v': Snapshot, now: nat, warmup: bool)
    requires Finished(v, v', now) && Settled(v.wq, warmup) && Settled(v.rq, warmup)
    ensures Settled(v'.wq, warmup) && Settled(v'.rq, warmup) && v.released <= v'.released
  {
  }

  lemma SwapSettles(v: Snapshot, v': Snapshot, now: nat, tCAS: nat, warmup: bool)
    requires Swapped(v, v', now, tCAS) && Settled(v.wq, warmup) && Settled(v.rq, warmup)
    ensures Settled(v'.wq, warmup) && Settled(v'.rq, warmup)
  {
  }

  lemma AllDistinct(g: Geometry, q: Queue)
    requires CheckedDistinct(g, q) && AllChecked(q)
    ensures Distinct(g, q)
  {
  }

  lemma {:induction false} NothingOwed(q: Queue, n: nat)
    requires AllEmpty(q) && n <= |q|
    ensures Owed(q, n) == 0
  {
    if n > 0 {
      NothingOwed(q, n - 1);
    }
  }

  lemma InitialBanks(g: Geometry, banks: seq<Bank>, wq: Queue, rq: Queue)
    requires g.Valid() && |banks| == BankCount(g) && AllEmpty(wq) && AllEmpty(rq) && AllIdle(banks)
    ensures BankInv(g, banks, None, wq, rq, false)
  {
    hide BankCount, BankRequestIndex;
  }

  lemma OffsetFits(g: Geometry)
    requires g.Valid()
    ensures g.offset <= ADDRESS_BITS
  {
    assert g.Sizes()[0] == g.offset;
    assert Sum(g.Sizes(), 1) == g.offset;
    assert Sum(g.Sizes(), 2) >= g.offset;
    assert Sum(g.Sizes(), 4) >= g.offset;
    assert Sum(g.Sizes(), 6) >= g.offset;
  }

  lemma LocatedQueues(g: Geometry, banks: seq<Bank>, active: Option<nat>, wq: Queue, rq: Queue, writeMode: bool)
    requires BankInv(g, banks, active, wq, rq, writeMode)
    ensures Located(wq) && Located(rq)
  {
  }

  /** Every block that the first queue holds, the second holds too. */
  ghost predicate Covers(g: Geometry, q: Queue, q': Queue) {
    forall i :: 0 <= i < |q| && q[i].Some? ==> Covered(g, q', q[i].value.address)
  }

  ghost predicate Covered(g: Geometry, q: Queue, address: Bits) {
    exists j :: 0 <= j < |q| && q[j].Some? && IsCollision(g, q[j].value.address, address)
  }

  lemma CoversSelf(g: Geometry, q: Queue)
    requires g.offset <= ADDRESS_BITS && Located(q)
    ensures Covers(g, q, q)
  {
    forall i | 0 <= i < |q| && q[i].Some? ensures Covered(g, q, q[i].value.address) {
      assert IsCollision(g, q[i].value.address, q[i].value.address);
    }
  }

  lemma CoverDrop(g: Geometry, q: Queue, q': Queue, i: nat, j: nat)
    requires Covers(g, q, q') && i < |q'| && j < |q'| && i != j && q'[i].Some? && q'[j].Some?
    requires IsCollision(g, q'[j].value.address, q'[i].value.address)
    ensures Covers(g, q, q'[i := None])
  {
    forall k | 0 <= k < |q| && q[k].Some? ensures Covered(g, q'[i := None], q[k].value.address) {
      assert Covered(g, q', q[k].value.address);
      var m :| 0 <= m < |q'| && q'[m].Some? && IsCollision(g, q'[m].value.address, q[k].value.address);
      assert q'[i := None][if m == i then j else m] == q'[if m == i then j else m];
    }
  }

  lemma CoverMark(g: Geometry, q: Queue, q': Queue, i: nat)
    requires Covers(g, q, q') && i < |q'| && q'[i].Some?
    ensures Covers(g, q, q'[i := Some(q'[i].value.(forwardChecked := true))])
  {
    var q'' := q'[i := Some(q'[i].value.(forwardChecked := true))];
    forall k | 0 <= k < |q| && q[k].Some? ensures Covered(g, q'', q[k].value.address) {
      assert Covered(g, q', q[k].value.address);
      var m :| 0 <= m < |q'| && q'[m].Some? && IsCollision(g, q'[m].value.address, q[k].value.address);
      assert q''[m].Some? && q''[m].value.address == q'[m].value.address;
    }
  }

  lemma MarkDistinct(g: Geometry, q: Queue, i: nat)
    requires CheckedDistinct(g, q) && i < |q| && q[i].Some?
    requires forall j :: 0 <= j < |q| && j != i && q[j].Some? ==> !IsCollision(g, q[j].value.address, q[i].value.address)
    ensures CheckedDistinct(g, q[i := Some(q[i].value.(forwardChecked := true))])
  {
  }

  lemma AbsorbDistinct(g: Geometry, q: Queue, i: nat, e: Request)
    requires CheckedDistinct(g, q) && i < |q| && q[i].Some?
    ensures CheckedDistinct(g, q[i := Some(Absorb(q[i].value, e))])
  {
  }

  lemma WriteChange(g: Geometry, banks: seq<Bank>, active: Option<nat>, wq: Queue, rq: Queue, writeMode: bool, i: nat, e: Option<Request>)
    requires BankInv(g, banks, active, wq, rq, writeMode) && i < |wq| && wq[i].Some? && !wq[i].value.forwardChecked
    requires e.None? || e == Some(wq[i].value.(forwardChecked := true))
    ensures BankInv(g, banks, active, wq[i := e], rq, writeMode)
  {
    hide BankRequestIndex, BankCount;
    QueueFrame(g, banks, active, wq, rq, wq[i := e], rq, writeMode);
  }

  lemma ReadChange(g: Geometry, banks: seq<Bank>, active: Option<nat>, wq: Queue, rq: Queue, writeMode: bool, i: nat, e: Option<Request>)
    requires BankInv(g, banks, active, wq, rq, writeMode) && i < |rq| && rq[i].Some?
    requires !rq[i].value.forwardChecked || e.Some?
    requires e.None? || (e.value.address == rq[i].value.address && e.value.ready == rq[i].value.ready
                         && e.value.scheduled == rq[i].value.scheduled)
    requires e.Some? && Busy(rq[i]) ==> e.value.forwardChecked == rq[i].value.forwardChecked || !rq[i].value.forwardChecked
    ensures BankInv(g, banks, active, wq, rq[i := e], writeMode)
  {
    hide BankRequestIndex, BankCount;
    QueueFrame(g, banks, active, wq, rq, wq, rq[i := e], writeMode);
  }

  /** A new request in an empty slot: it is neither scheduled nor checked. */
  lemma EnqueueStep(g: Geometry, banks: seq<Bank>, active: Option<nat>, wq: Queue, rq: Queue, writeMode: bool,
                    write: bool, i: nat, e: Request)
    requires BankInv(g, banks, active, wq, rq, writeMode)
    requires i < |Chosen(wq, rq, write)| && Chosen(wq, rq, write)[i].None?
    requires |e.address| == ADDRESS_BITS && !e.scheduled
    ensures write ==> BankInv(g, banks, active, wq[i := Some(e)], rq, writeMode)
    ensures !write ==> BankInv(g, banks, active, wq, rq[i := Some(e)], writeMode)
  {
    EnqueueFrame(wq, rq, write, i, e, g, banks, active, writeMode);
    hide BankInv;
    if write {
      QueueFrame(g, banks, active, wq, rq, wq[i := Some(e)], rq, writeMode);
    } else {
      QueueFrame(g, banks, active, wq, rq, wq, rq[i := Some(e)], writeMode);
    }
  }

  lemma EnqueueFrame(wq: Queue, rq: Queue, write: bool, i: nat, e: Request, g: Geometry, banks: seq<Bank>, active: Option<nat>,
                     writeMode: bool)
    requires BankInv(g, banks, active, wq, rq, writeMode)
    requires i < |Chosen(wq, rq, write)| && Chosen(wq, rq, write)[i].None?
    requires |e.address| == ADDRESS_BITS && !e.scheduled
    ensures Located(wq) && Located(rq)
    ensures write ==> SameBusy(wq, wq[i := Some(e)]) && Located(wq[i := Some(e)])
    ensures !write ==> SameBusy(rq, rq[i := Some(e)]) && Located(rq[i := Some(e)])
  {
    hide BankRequestIndex, BankCount;
  }

  lemma EnqueueDistinct(g: Geometry, q: Queue, i: nat, e: Option<Request>)
    requires CheckedDistinct(g, q) && i < |q| && (e.Some? ==> !e.value.forwardChecked)
    ensures CheckedDistinct(g, q[i := e])
  {
  }

  // ---- what a cycle achieves ---------------------------------------------------------------

  /** Request `i` waits, and every other waiting request is preferred less. */
  ghost predicate FirstInLine(g: Geometry, v: Snapshot, i: nat)
    requires QueueReady(g, v)
  {
    && i < |Chosen(v.wq, v.rq, v.writeMode)| && Waiting(Chosen(v.wq, v.rq, v.writeMode)[i])
    && forall j :: 0 <= j < |Chosen(v.wq, v.rq, v.writeMode)| && j != i && Waiting(Chosen(v.wq, v.rq, v.writeMode)[j]) ==>
      !Precedes(g, v, j, i)
  }

  lemma FirstIsBest(g: Geometry, v: Snapshot, i: nat, best: nat)
    requires QueueReady(g, v) && FirstInLine(g, v, i) && IsBest(g, v, best)
    ensures best == i
  {
    hide BankRequestIndex, BankCount;
  }

  /** The request that comes first once the mode, the refreshes and the bus are settled: if it is
      ready, and its bank neither busy nor under refresh, then after the cycle that bank is busy
      with it, on its row, for as long as the row needs. */
  lemma CycleServes(g: Geometry, t: Timing, now: nat, warmup: bool, v: Snapshot, c: Trace, v': Snapshot, i: nat, b: nat)
    requires Cycle(g, t, now, warmup, v, c, v') && QueueReady(g, c.populated) && FirstInLine(g, c.populated, i)
    requires var e := Chosen(c.populated.wq, c.populated.rq, c.populated.writeMode)[i].value;
      e.ready.By(now) && b == BankRequestIndex(g, e.address) && b < |c.populated.banks|
      && !c.populated.banks[b].valid && !c.populated.banks[b].underRefresh
    ensures var p := c.populated;
      var row := Decode(g, Chosen(p.wq, p.rq, p.writeMode)[i].value.address).row;
      && |v'.banks| == |p.banks| && v'.banks[b].valid && v'.banks[b].pkt == Slot(p.writeMode, i)
      && v'.banks[b].openRow == Some(row) && (v'.banks[b].rowHit <==> p.banks[b].openRow == Some(row))
      && (p.banks[b].openRow == Some(row) ==> v'.banks[b].ready == now + t.tCAS)
      && (p.banks[b].openRow == None ==> v'.banks[b].ready == now + t.tCAS + t.tRCD)
      && (p.banks[b].openRow.Some? && p.banks[b].openRow != Some(row) ==> v'.banks[b].ready == now + t.tCAS + t.tRP + t.tRCD)
      && (forall d :: 0 <= d < |p.banks| && d != b ==> v'.banks[d] == p.banks[d])
      && i < |Chosen(v'.wq, v'.rq, p.writeMode)| && Busy(Chosen(v'.wq, v'.rq, p.writeMode)[i])
      && Chosen(v'.wq, v'.rq, p.writeMode)[i].value.ready == Never
      && Chosen(v'.wq, v'.rq, p.writeMode)[i].value.address == Chosen(p.wq, p.rq, p.writeMode)[i].value.address
  {
    hide BankRequestIndex, BankCount, Decode, Sifted, Drained, Swapped, Populated, Finished, AllRefreshed, IsNext, Precedes, BusFree, Unbalanced;
    FirstIsBest(g, c.populated, i, c.packet);
    hide IsBest, FirstInLine;
  }

  /** A request on the bus whose data has crossed: after the cycle its slot is empty, and a
      response that this cycle pushed answers everyone who waited in the slot. */
  lemma CycleAnswers(g: Geometry, t: Timing, now: nat, v: Snapshot, accepted: seq<Accepted>, c: Trace, v': Snapshot)
    requires ViewInv(g, v, accepted, false) && Cycle(g, t, now, false, v, c, v') && BusDone(v.banks, v.active, now)
    ensures v.OnBus() && !c.finished.banks[v.active.value].valid
    ensures var pkt := v.banks[v.active.value].pkt;
      var e := Chosen(v.wq, v.rq, pkt.write)[pkt.index].value;
      && pkt.index < |Chosen(v'.wq, v'.rq, pkt.write)| && Chosen(v'.wq, v'.rq, pkt.write)[pkt.index] == None
      && exists k: nat :: |v.released| <= k < |v'.released| && Delivers(v'.released[k], e)
  {
    hide BankRequestIndex, BankCount, ReadsInv, CheckedDistinct, BankInv, Cycle, Finished, Sifted;
    var pkt := v.banks[v.active.value].pkt;
    ActiveInRange(g, v, accepted, false);
    ServedRequest(g, v.banks, v.active, v.wq, v.rq, v.writeMode, v.active.value);
    CycleBegins(g, t, now, v, c, v');
    FinishedAnswers(g, now, v, c.sifted, c.finished);
    AnsweredLater(g, t, now, v, c, v', pkt);
  }

  /** The response is for the request's address and for everyone who waits on it. */
  ghost predicate Delivers(l: Release, e: Request) {
    l.address == e.address && e.deps <= l.deps && e.toReturn <= l.requesters
  }

  lemma CycleBegins(g: Geometry, t: Timing, now: nat, v: Snapshot, c: Trace, v': Snapshot)
    requires Cycle(g, t, now, false, v, c, v')
    ensures Sifted(g, v, c.sifted) && Finished(c.sifted, c.finished, now)
  {
  }

  lemma FinishedAnswers(g: Geometry, now: nat, v: Snapshot, s: Snapshot, f: Snapshot)
    requires Sifted(g, v, s) && Finished(s, f, now) && BusDone(v.banks, v.active, now)
    requires v.banks[v.active.value].pkt.index < |Chosen(v.wq, v.rq, v.banks[v.active.value].pkt.write)|
    requires Busy(Chosen(v.wq, v.rq, v.banks[v.active.value].pkt.write)[v.banks[v.active.value].pkt.index])
    requires Chosen(v.wq, v.rq, v.banks[v.active.value].pkt.write)[v.banks[v.active.value].pkt.index].value.forwardChecked
    ensures v.OnBus() && v.active.value < |f.banks| && !f.banks[v.active.value].valid
    ensures var pkt := v.banks[v.active.value].pkt;
      && pkt.index < |Chosen(f.wq, f.rq, pkt.write)| && Chosen(f.wq, f.rq, pkt.write)[pkt.index] == None
      && |v.released| < |f.released|
      && Delivers(f.released[|f.released| - 1], Chosen(v.wq, v.rq, pkt.write)[pkt.index].value)
  {
    hide Covers, WaitersKept, Distinct, Unforwarded;
  }

  /** What is empty stays empty for the rest of the cycle, and no response is taken back. */
  lemma AnsweredLater(g: Geometry, t: Timing, now: nat, v: Snapshot, c: Trace, v': Snapshot, pkt: Slot)
    requires Cycle(g, t, now, false, v, c, v')
    requires pkt.index < |Chosen(c.finished.wq, c.finished.rq, pkt.write)| && Chosen(c.finished.wq, c.finished.rq, pkt.write)[pkt.index] == None
    ensures pkt.index < |Chosen(v'.wq, v'.rq, pkt.write)| && Chosen(v'.wq, v'.rq, pkt.write)[pkt.index] == None
    ensures v'.released == c.finished.released
  {
    hide Sifted, Drained, Finished, BanksReset, IsNext, IsBest, Unbalanced, BankRequestIndex, BankCount, Decode, Refreshed;
    hide IsBankgroupOf, BusFree;
  }
}
