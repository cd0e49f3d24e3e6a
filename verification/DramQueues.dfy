/** The request queues and banks of a DRAM channel as values, and the invariant that ties the
    banks' pointers into the queues to the queues' own flags. */
module DramQueues {
  import opened Prelude
  import opened BitStrings
  import opened DramMapping

  /** A queued request. `deps` are the instructions that wait for it, `toReturn` the channels
      that asked for a response. */
  datatype Request = Request(address: Bits, ready: Ready, scheduled: bool, forwardChecked: bool, deps: set<nat>, toReturn: set<nat>)

  type Queue = seq<Option<Request>>

  /** An iterator into one of the two queues. */
  datatype Slot = Slot(write: bool, index: nat)

  datatype Bank = Bank(valid: bool, rowHit: bool, needRefresh: bool, underRefresh: bool, openRow: Option<Bits>, ready: nat, pkt: Slot)

  /** One response to each of `requesters`. */
  datatype Release = Release(address: Bits, deps: set<nat>, requesters: set<nat>)

  /** A read that the channel took on: `requester` must hear about `deps`. Only the releases
      from position `since` on came after it. */
  datatype Accepted = Accepted(address: Bits, deps: set<nat>, requester: nat, since: nat)

  predicate Busy(e: Option<Request>) {
    e.Some? && e.value.scheduled
  }

  ghost predicate Located(q: Queue) {
    forall i :: 0 <= i < |q| && q[i].Some? ==> |q[i].value.address| == ADDRESS_BITS
  }

  function Chosen(wq: Queue, rq: Queue, write: bool): Queue {
    if write then wq else rq
  }

  /** The request that bank `b` serves. */
  ghost predicate PointsTo(g: Geometry, wq: Queue, rq: Queue, bank: Bank, b: nat)
    requires g.Valid() && Located(wq) && Located(rq)
  {
    var q := Chosen(wq, rq, bank.pkt.write);
    && bank.pkt.index < |q|
    && Busy(q[bank.pkt.index])
    && BankRequestIndex(g, q[bank.pkt.index].value.address) == b
  }

  /** Every scheduled request of the queue is served by its own bank. */
  ghost predicate Served(g: Geometry, banks: seq<Bank>, q: Queue, write: bool)
    requires g.Valid() && Located(q)
  {
    forall i :: 0 <= i < |q| && Busy(q[i]) ==>
      && q[i].value.forwardChecked && q[i].value.ready == Never
      && BankRequestIndex(g, q[i].value.address) < |banks|
      && banks[BankRequestIndex(g, q[i].value.address)].valid
      && banks[BankRequestIndex(g, q[i].value.address)].pkt == Slot(write, i)
  }

  ghost predicate BankInv(g: Geometry, banks: seq<Bank>, active: Option<nat>, wq: Queue, rq: Queue, writeMode: bool) {
    && g.Valid() && |banks| == BankCount(g) && Located(wq) && Located(rq)
    && (forall b :: 0 <= b < |banks| && banks[b].valid ==> PointsTo(g, wq, rq, banks[b], b))
    && Served(g, banks, wq, true) && Served(g, banks, rq, false)
    && (forall b :: 0 <= b < |banks| && banks[b].valid && active != Some(b) ==> banks[b].pkt.write == writeMode)
    && (forall b :: 0 <= b < |banks| && banks[b].valid ==> !banks[b].underRefresh)
    && (active.Some? ==> active.value < |banks| && banks[active.value].valid)
  }

  /** No refresh is pending on an idle bank. */
  ghost predicate RefreshTaken(banks: seq<Bank>) {
    forall b :: 0 <= b < |banks| && !banks[b].valid ==> !banks[b].needRefresh
  }

  /** A request is scheduled exactly when one valid bank points to it, and that bank is its own. */
  lemma ScheduledIffServed(g: Geometry, banks: seq<Bank>, active: Option<nat>, wq: Queue, rq: Queue, writeMode: bool,
                           write: bool, i: nat, b: nat)
    requires BankInv(g, banks, active, wq, rq, writeMode)
    requires i < |Chosen(wq, rq, write)| && Chosen(wq, rq, write)[i].Some? && b < |banks|
    ensures (banks[b].valid && banks[b].pkt == Slot(write, i)) <==>
      (Busy(Chosen(wq, rq, write)[i]) && BankRequestIndex(g, Chosen(wq, rq, write)[i].value.address) == b)
  {
    hide BankRequestIndex, BankCount;
    if banks[b].valid {
      assert PointsTo(g, wq, rq, banks[b], b);
    }
  }

  // ---- frames ----------------------------------------------------------------------------

  /** The scheduled requests of the two queues agree in what the banks depend on. */
  ghost predicate SameBusy(q: Queue, q': Queue) {
    && |q| == |q'|
    && (forall i :: 0 <= i < |q| ==> Busy(q[i]) == Busy(q'[i]))
    && (forall i :: 0 <= i < |q| && Busy(q[i]) ==>
          q[i].value.address == q'[i].value.address && q[i].value.ready == q'[i].value.ready
          && q[i].value.forwardChecked == q'[i].value.forwardChecked)
  }

  /** Changing requests that are not scheduled, or only who waits for them, keeps the invariant. */
  lemma QueueFrame(g: Geometry, banks: seq<Bank>, active: Option<nat>, wq: Queue, rq: Queue, wq': Queue, rq': Queue, writeMode: bool)
    requires BankInv(g, banks, active, wq, rq, writeMode)
    requires SameBusy(wq, wq') && SameBusy(rq, rq') && Located(wq') && Located(rq')
    ensures BankInv(g, banks, active, wq', rq', writeMode)
  {
    hide BankRequestIndex, BankCount;
    forall b | 0 <= b < |banks| && banks[b].valid ensures PointsTo(g, wq', rq', banks[b], b) {
      assert PointsTo(g, wq, rq, banks[b], b);
    }
  }

  /** Bank `b` gives up the request it serves: its slot becomes `e`, which is not scheduled. */
  lemma VacateStep(g: Geometry, banks: seq<Bank>, active: Option<nat>, wq: Queue, rq: Queue, wq': Queue, rq': Queue,
                   writeMode: bool, b: nat, bank: Bank, e: Option<Request>)
    requires BankInv(g, banks, active, wq, rq, writeMode) && b < |banks| && banks[b].valid && !bank.valid
    requires banks[b].pkt.index < |Chosen(wq, rq, banks[b].pkt.write)|
    requires !Busy(e) && (e.Some? ==> |e.value.address| == ADDRESS_BITS)
    requires wq' == if banks[b].pkt.write then wq[banks[b].pkt.index := e] else wq
    requires rq' == if banks[b].pkt.write then rq else rq[banks[b].pkt.index := e]
    ensures BankInv(g, banks[b := bank], if active == Some(b) then None else active, wq', rq', writeMode)
  {
    hide BankRequestIndex, BankCount;
    var banks' := banks[b := bank];
    assert PointsTo(g, wq, rq, banks[b], b);
    VacateServed(g, banks, active, wq, rq, wq', true, writeMode, b, bank, e);
    VacateServed(g, banks, active, wq, rq, rq', false, writeMode, b, bank, e);
    hide Served;
    forall c | 0 <= c < |banks'| && banks'[c].valid ensures PointsTo(g, wq', rq', banks'[c], c) {
      assert PointsTo(g, wq, rq, banks[c], c);
      ScheduledIffServed(g, banks, active, wq, rq, writeMode, banks[b].pkt.write, banks[b].pkt.index, c);
    }
  }

  lemma VacateServed(g: Geometry, banks: seq<Bank>, active: Option<nat>, wq: Queue, rq: Queue, q': Queue, write: bool,
                     writeMode: bool, b: nat, bank: Bank, e: Option<Request>)
    requires BankInv(g, banks, active, wq, rq, writeMode) && b < |banks| && banks[b].valid
    requires banks[b].pkt.index < |Chosen(wq, rq, banks[b].pkt.write)|
    requires !Busy(e) && (e.Some? ==> |e.value.address| == ADDRESS_BITS)
    requires q' == if banks[b].pkt.write == write then Chosen(wq, rq, write)[banks[b].pkt.index := e] else Chosen(wq, rq, write)
    ensures Located(q') && Served(g, banks[b := bank], q', write)
  {
    hide BankRequestIndex, BankCount;
    forall i | 0 <= i < |q'| && Busy(q'[i]) ensures BankRequestIndex(g, q'[i].value.address) != b {
      ScheduledIffServed(g, banks, active, wq, rq, writeMode, write, i, b);
    }
  }

  /** Once only the active bank is busy, the mode can be inverted. */
  lemma FlipStep(g: Geometry, banks: seq<Bank>, active: Option<nat>, wq: Queue, rq: Queue, writeMode: bool)
    requires BankInv(g, banks, active, wq, rq, writeMode)
    requires forall b :: 0 <= b < |banks| && banks[b].valid ==> active == Some(b)
    ensures BankInv(g, banks, active, wq, rq, !writeMode)
  {
    hide BankRequestIndex, BankCount;
  }

  /** The served request of a valid bank. */
  lemma ServedRequest(g: Geometry, banks: seq<Bank>, active: Option<nat>, wq: Queue, rq: Queue, writeMode: bool, b: nat)
    requires BankInv(g, banks, active, wq, rq, writeMode) && b < |banks| && banks[b].valid
    ensures banks[b].pkt.index < |Chosen(wq, rq, banks[b].pkt.write)|
    ensures Busy(Chosen(wq, rq, banks[b].pkt.write)[banks[b].pkt.index])
    ensures |Chosen(wq, rq, banks[b].pkt.write)[banks[b].pkt.index].value.address| == ADDRESS_BITS
    ensures Chosen(wq, rq, banks[b].pkt.write)[banks[b].pkt.index].value.forwardChecked
    ensures BankRequestIndex(g, Chosen(wq, rq, banks[b].pkt.write)[banks[b].pkt.index].value.address) == b
  {
    hide BankRequestIndex, BankCount;
    assert PointsTo(g, wq, rq, banks[b], b);
  }

  function Schedule(e: Option<Request>): Option<Request> {
    if e.Some? then Some(e.value.(scheduled := true, ready := Never)) else None
  }

  lemma ServiceServed(g: Geometry, banks: seq<Bank>, q: Queue, write: bool, i: nat, n: nat, bank: Bank)
    requires g.Valid() && Located(q) && Served(g, banks, q, write) && i < |q| && q[i].Some? && q[i].value.forwardChecked
    requires n == BankRequestIndex(g, q[i].value.address) < |banks| && !banks[n].valid
    requires bank.valid && bank.pkt == Slot(write, i)
    ensures Located(q[i := Schedule(q[i])]) && Served(g, banks[n := bank], q[i := Schedule(q[i])], write)
  {
    hide BankRequestIndex;
  }

  lemma OtherServed(g: Geometry, banks: seq<Bank>, q: Queue, write: bool, n: nat, bank: Bank)
    requires g.Valid() && Located(q) && Served(g, banks, q, write) && n < |banks| && !banks[n].valid
    ensures Served(g, banks[n := bank], q, write)
  {
    hide BankRequestIndex;
  }

  /** Serving an idle bank's packet: slot `i` of the queue that the write mode selects. */
  lemma ServiceStep(g: Geometry, banks: seq<Bank>, active: Option<nat>, wq: Queue, rq: Queue, wq': Queue, rq': Queue,
                    writeMode: bool, i: nat, n: nat, bank: Bank)
    requires BankInv(g, banks, active, wq, rq, writeMode)
    requires i < |Chosen(wq, rq, writeMode)| && Chosen(wq, rq, writeMode)[i].Some? && Chosen(wq, rq, writeMode)[i].value.forwardChecked
    requires n == BankRequestIndex(g, Chosen(wq, rq, writeMode)[i].value.address) < |banks| && !banks[n].valid
    requires bank.valid && !bank.underRefresh && bank.pkt == Slot(writeMode, i)
    requires wq' == if writeMode then wq[i := Schedule(wq[i])] else wq
    requires rq' == if writeMode then rq else rq[i := Schedule(rq[i])]
    ensures BankInv(g, banks[n := bank], active, wq', rq', writeMode)
  {
    hide BankRequestIndex, BankCount;
    var banks' := banks[n := bank];
    ServiceServed(g, banks, Chosen(wq, rq, writeMode), writeMode, i, n, bank);
    OtherServed(g, banks, Chosen(wq, rq, !writeMode), !writeMode, n, bank);
    hide Served;
    forall b | 0 <= b < |banks'| && banks'[b].valid ensures PointsTo(g, wq', rq', banks'[b], b) {
      if b != n {
        assert PointsTo(g, wq, rq, banks[b], b);
      }
    }
  }

  /** Changing refresh flags, rows or times of banks without changing which are valid. */
  ghost predicate SamePointers(banks: seq<Bank>, banks': seq<Bank>) {
    && |banks| == |banks'|
    && forall b :: 0 <= b < |banks| ==>
      banks[b].valid == banks'[b].valid && banks[b].pkt == banks'[b].pkt
      && (banks[b].valid ==> banks'[b].underRefresh == banks[b].underRefresh)
  }

  lemma BankFrame(g: Geometry, banks: seq<Bank>, banks': seq<Bank>, active: Option<nat>, active': Option<nat>,
                  wq: Queue, rq: Queue, writeMode: bool)
    requires BankInv(g, banks, active, wq, rq, writeMode) && SamePointers(banks, banks')
    requires active' == active || (active.None? && active'.Some? && active'.value < |banks| && banks[active'.value].valid)
    ensures BankInv(g, banks', active', wq, rq, writeMode)
  {
    hide BankRequestIndex, BankCount;
    forall b | 0 <= b < |banks'| && banks'[b].valid ensures PointsTo(g, wq, rq, banks'[b], b) {
      assert PointsTo(g, wq, rq, banks[b], b);
    }
  }

  // ---- reads are not dropped -------------------------------------------------------------

  /** Slot `e` remembers the accepted read `r`. */
  ghost predicate Remembers(g: Geometry, e: Option<Request>, r: Accepted) {
    && e.Some? && IsCollision(g, e.value.address, r.address)
    && r.deps <= e.value.deps && r.requester in e.value.toReturn
  }

  /** A release that answers the accepted read `r`. */
  ghost predicate AnswersRead(g: Geometry, l: Release, r: Accepted) {
    && IsCollision(g, l.address, r.address)
    && r.deps <= l.deps && r.requester in l.requesters
  }

  /** The read waits in a slot, or was answered after it had been taken on. */
  ghost predicate Recorded(g: Geometry, rq: Queue, released: seq<Release>, r: Accepted) {
    || (exists i :: 0 <= i < |rq| && Remembers(g, rq[i], r))
    || (exists i :: r.since <= i < |released| && AnswersRead(g, released[i], r))
  }

  ghost predicate NoReadDropped(g: Geometry, rq: Queue, released: seq<Release>, accepted: seq<Accepted>) {
    forall k :: 0 <= k < |accepted| ==> accepted[k].since <= |released| && Recorded(g, rq, released, accepted[k])
  }

  function ReleaseOf(e: Request): Release {
    Release(e.address, e.deps, e.toReturn)
  }

  function Weight(e: Option<Request>): nat {
    if e.Some? then |e.value.toReturn| else 0
  }

  /** The responses that the first `n` slots will push. */
  function Owed(q: Queue, n: nat): nat
    requires n <= |q|
  {
    if n == 0 then 0 else Owed(q, n - 1) + Weight(q[n - 1])
  }

  /** The responses pushed so far. */
  function Pushed(released: seq<Release>): nat {
    if released == [] then 0 else Pushed(released[..|released| - 1]) + |released[|released| - 1].requesters|
  }

  /** The responses pushed so far and those still owed never exceed the reads taken on. */
  ghost predicate AnsweredOnce(rq: Queue, released: seq<Release>, accepted: seq<Accepted>) {
    Owed(rq, |rq|) + Pushed(released) <= |accepted|
  }

  ghost predicate ReadsInv(g: Geometry, rq: Queue, released: seq<Release>, accepted: seq<Accepted>) {
    NoReadDropped(g, rq, released, accepted) && AnsweredOnce(rq, released, accepted)
  }

  lemma {:induction false} OwedUpdate(q: Queue, i: nat, e: Option<Request>, n: nat)
    requires n <= |q| && i < |q|
    ensures Owed(q[i := e], n) == if i < n then Owed(q, n) - Weight(q[i]) + Weight(e) else Owed(q, n)
  {
    if n > 0 {
      OwedUpdate(q, i, e, n - 1);
    }
  }

  lemma PushedAppend(released: seq<Release>, l: Release)
    ensures Pushed(released + [l]) == Pushed(released) + |l.requesters|
  {
    assert (released + [l])[..|released|] == released;
  }

  /** Releasing slot `i` answers everything it remembered. */
  lemma ReleaseStep(g: Geometry, rq: Queue, released: seq<Release>, accepted: seq<Accepted>, i: nat)
    requires ReadsInv(g, rq, released, accepted) && i < |rq| && rq[i].Some?
    ensures ReadsInv(g, rq[i := None], released + [ReleaseOf(rq[i].value)], accepted)
  {
    OwedUpdate(rq, i, None, |rq|);
    PushedAppend(released, ReleaseOf(rq[i].value));
    hide Pushed, Owed;
    var rq' := rq[i := None];
    var released' := released + [ReleaseOf(rq[i].value)];
    forall k | 0 <= k < |accepted| ensures Recorded(g, rq', released', accepted[k]) {
      var r := accepted[k];
      if j :| 0 <= j < |rq| && Remembers(g, rq[j], r) {
        if j == i {
          assert AnswersRead(g, released'[|released|], r);
        } else {
          assert Remembers(g, rq'[j], r);
        }
      } else {
        var j :| r.since <= j < |released| && AnswersRead(g, released[j], r);
        assert AnswersRead(g, released'[j], r);
      }
    }
  }

  /** A release that nobody asked for changes nothing. */
  lemma SilentReleaseStep(g: Geometry, rq: Queue, released: seq<Release>, accepted: seq<Accepted>, l: Release)
    requires ReadsInv(g, rq, released, accepted) && l.requesters == {}
    ensures ReadsInv(g, rq, released + [l], accepted)
  {
    PushedAppend(released, l);
    hide Pushed, Owed;
    forall k | 0 <= k < |accepted| ensures Recorded(g, rq, released + [l], accepted[k]) {
      if j :| accepted[k].since <= j < |released| && AnswersRead(g, released[j], accepted[k]) {
        assert AnswersRead(g, (released + [l])[j], accepted[k]);
      }
    }
  }

  /** Changing a slot to one that remembers at least as much drops nothing. */
  lemma KeepRecorded(g: Geometry, rq: Queue, released: seq<Release>, accepted: seq<Accepted>, i: nat, e: Option<Request>)
    requires NoReadDropped(g, rq, released, accepted) && i < |rq|
    requires forall r :: Remembers(g, rq[i], r) ==> Remembers(g, e, r)
    ensures NoReadDropped(g, rq[i := e], released, accepted)
  {
    var rq' := rq[i := e];
    forall k | 0 <= k < |accepted| ensures Recorded(g, rq', released, accepted[k]) {
      var r := accepted[k];
      if j :| 0 <= j < |rq| && Remembers(g, rq[j], r) {
        assert Remembers(g, rq'[j], r);
      }
    }
  }

  /** A slot may change everything but its block and who waits for it. */
  lemma KeepStep(g: Geometry, rq: Queue, released: seq<Release>, accepted: seq<Accepted>, i: nat, e: Option<Request>)
    requires ReadsInv(g, rq, released, accepted) && i < |rq|
    requires forall r :: Remembers(g, rq[i], r) ==> Remembers(g, e, r)
    requires Weight(e) <= Weight(rq[i])
    ensures ReadsInv(g, rq[i := e], released, accepted)
  {
    KeepRecorded(g, rq, released, accepted, i, e);
    OwedUpdate(rq, i, e, |rq|);
  }

  /** The older request after it absorbs a newer one for the same block. */
  function Absorb(into: Request, from: Request): Request {
    into.(deps := into.deps + from.deps, toReturn := into.toReturn + from.toReturn)
  }

  lemma AbsorbRemembers(g: Geometry, into: Request, from: Request, r: Accepted)
    requires IsCollision(g, into.address, from.address)
    ensures Remembers(g, Some(into), r) || Remembers(g, Some(from), r) ==> Remembers(g, Some(Absorb(into, from)), r)
  {
  }

  lemma MergeWeight(rq: Queue, i: nat, j: nat)
    requires i < |rq| && j < |rq| && i != j && rq[i].Some? && rq[j].Some?
    ensures Owed(rq[j := Some(Absorb(rq[j].value, rq[i].value))][i := None], |rq|) <= Owed(rq, |rq|)
  {
    var merged := Some(Absorb(rq[j].value, rq[i].value));
    OwedUpdate(rq, j, merged, |rq|);
    OwedUpdate(rq[j := merged], i, None, |rq|);
  }

  /** Merging slot `i` into slot `j` drops nothing. */
  lemma MergeStep(g: Geometry, rq: Queue, released: seq<Release>, accepted: seq<Accepted>, i: nat, j: nat)
    requires ReadsInv(g, rq, released, accepted)
    requires i < |rq| && j < |rq| && i != j && rq[i].Some? && rq[j].Some?
    requires IsCollision(g, rq[j].value.address, rq[i].value.address)
    ensures ReadsInv(g, rq[j := Some(Absorb(rq[j].value, rq[i].value))][i := None], released, accepted)
  {
    MergeWeight(rq, i, j);
    hide Owed, Pushed;
    var rq' := rq[j := Some(Absorb(rq[j].value, rq[i].value))][i := None];
    forall k | 0 <= k < |accepted| ensures Recorded(g, rq', released, accepted[k]) {
      var r := accepted[k];
      AbsorbRemembers(g, rq[j].value, rq[i].value, r);
      if m :| 0 <= m < |rq| && Remembers(g, rq[m], r) {
        assert Remembers(g, rq'[if m == i then j else m], r);
      }
    }
  }

  /** Taking on a read records it, whatever was answered before. */
  lemma AcceptStep(g: Geometry, rq: Queue, released: seq<Release>, accepted: seq<Accepted>, i: nat, e: Request, requester: nat)
    requires ReadsInv(g, rq, released, accepted) && i < |rq| && rq[i].None?
    requires g.offset <= |e.address| && e.toReturn == {requester}
    ensures ReadsInv(g, rq[i := Some(e)], released, accepted + [Accepted(e.address, e.deps, requester, |released|)])
  {
    KeepRecorded(g, rq, released, accepted, i, Some(e));
    OwedUpdate(rq, i, Some(e), |rq|);
    hide Owed, Pushed;
    assert Remembers(g, rq[i := Some(e)][i], Accepted(e.address, e.deps, requester, |released|));
  }

  // ---- one pass over the reads loses no waiter --------------------------------------------

  /** Slot `e'` waits for the block of `e` on behalf of all that wait on `e`. */
  ghost predicate StandsIn(g: Geometry, e: Request, e': Option<Request>) {
    && e'.Some? && IsCollision(g, e'.value.address, e.address)
    && e.deps <= e'.value.deps && e.toReturn <= e'.value.toReturn
  }

  /** The release answers all that wait on `e`. */
  ghost predicate AnswersAll(g: Geometry, l: Release, e: Request) {
    && IsCollision(g, l.address, e.address)
    && e.deps <= l.deps && e.toReturn <= l.requesters
  }

  ghost predicate HeardOf(g: Geometry, e: Request, q: Queue, answers: seq<Release>) {
    || (exists j :: 0 <= j < |q| && StandsIn(g, e, q[j]))
    || (exists j :: 0 <= j < |answers| && AnswersAll(g, answers[j], e))
  }

  /** Whoever waited in `before` still waits in `q` or is among `answers`. */
  ghost predicate WaitersKept(g: Geometry, before: Queue, q: Queue, answers: seq<Release>) {
    forall i :: 0 <= i < |before| && before[i].Some? ==> HeardOf(g, before[i].value, q, answers)
  }

  lemma WaitersSelf(g: Geometry, q: Queue)
    requires Located(q) && g.offset <= ADDRESS_BITS
    ensures WaitersKept(g, q, q, [])
  {
    forall i | 0 <= i < |q| && q[i].Some? ensures HeardOf(g, q[i].value, q, []) {
      assert StandsIn(g, q[i].value, q[i]);
    }
  }

  lemma WaitersReleased(g: Geometry, before: Queue, q: Queue, answers: seq<Release>, i: nat)
    requires WaitersKept(g, before, q, answers) && i < |q| && q[i].Some?
    ensures WaitersKept(g, before, q[i := None], answers + [ReleaseOf(q[i].value)])
  {
    var answers' := answers + [ReleaseOf(q[i].value)];
    forall k | 0 <= k < |before| && before[k].Some? ensures HeardOf(g, before[k].value, q[i := None], answers') {
      if j :| 0 <= j < |q| && StandsIn(g, before[k].value, q[j]) {
        if j == i {
          assert AnswersAll(g, answers'[|answers|], before[k].value);
        } else {
          assert StandsIn(g, before[k].value, q[i := None][j]);
        }
      } else {
        var j :| 0 <= j < |answers| && AnswersAll(g, answers[j], before[k].value);
        assert AnswersAll(g, answers'[j], before[k].value);
      }
    }
  }

  lemma WaitersMerged(g: Geometry, before: Queue, q: Queue, answers: seq<Release>, i: nat, j: nat)
    requires WaitersKept(g, before, q, answers) && i < |q| && j < |q| && i != j && q[i].Some? && q[j].Some?
    requires IsCollision(g, q[j].value.address, q[i].value.address)
    ensures WaitersKept(g, before, q[j := Some(Absorb(q[j].value, q[i].value))][i := None], answers)
  {
    var q' := q[j := Some(Absorb(q[j].value, q[i].value))][i := None];
    forall k | 0 <= k < |before| && before[k].Some? ensures HeardOf(g, before[k].value, q', answers) {
      if m :| 0 <= m < |q| && StandsIn(g, before[k].value, q[m]) {
        assert StandsIn(g, before[k].value, q'[if m == i then j else m]);
      }
    }
  }

  lemma WaitersMarked(g: Geometry, before: Queue, q: Queue, answers: seq<Release>, i: nat)
    requires WaitersKept(g, before, q, answers) && i < |q| && q[i].Some?
    ensures WaitersKept(g, before, q[i := Some(q[i].value.(forwardChecked := true))], answers)
  {
    var q' := q[i := Some(q[i].value.(forwardChecked := true))];
    forall k | 0 <= k < |before| && before[k].Some? ensures HeardOf(g, before[k].value, q', answers) {
      if m :| 0 <= m < |q| && StandsIn(g, before[k].value, q[m]) {
        assert StandsIn(g, before[k].value, q'[m]);
      }
    }
  }

  // ---- one request per block -------------------------------------------------------------

  /** Checked requests are pairwise for different blocks. */
  ghost predicate CheckedDistinct(g: Geometry, q: Queue) {
    forall i, j :: 0 <= i < j < |q| && q[i].Some? && q[j].Some? && q[i].value.forwardChecked && q[j].value.forwardChecked ==>
      !IsCollision(g, q[i].value.address, q[j].value.address)
  }
}
