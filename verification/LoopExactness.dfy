/** When the loop predictor is exact: a branch that is tracked from the start of an execution
    and always runs the same number of times is predicted perfectly from its fourth execution
    on, whatever other branches do in between; one tracked from the middle never is. */
module LoopExactness {
  import opened LoopPrediction

  /** The position of a branch in its loop: executions completed, and times taken in this one. */
  datatype Phase = Phase(rounds: nat, taken: nat)

  function Advance(ph: Phase, taken: bool): Phase {
    if taken then ph.(taken := ph.taken + 1) else Phase(ph.rounds + 1, 0)
  }

  /** The phase of branch `p` after the first `n` events. */
  function PhaseAfter(start: Phase, p: nat, es: seq<Event>, n: nat): Phase
    requires n <= |es|
  {
    if n == 0 then start
    else if es[n - 1].ip == p then Advance(PhaseAfter(start, p, es, n - 1), es[n - 1].taken)
    else PhaseAfter(start, p, es, n - 1)
  }

  /** Branch `p` is taken exactly `trips` times, then falls through, over and over. */
  ghost predicate ConstantTrip(start: Phase, p: nat, trips: nat, es: seq<Event>) {
    forall i :: 0 <= i < |es| && es[i].ip == p ==> es[i].taken == (PhaseAfter(start, p, es, i).taken < trips)
  }

  /** No other branch shares both the set and the tag of `p`. */
  ghost predicate Apart(p: nat, es: seq<Event>) {
    forall i :: 0 <= i < |es| && es[i].ip != p ==> SetOf(es[i].ip) != SetOf(p) || TagOf(es[i].ip) != TagOf(p)
  }

  /** The event asks for an entry in the set of `p` and finds every way in use. */
  predicate FailsIn(t: Table, e: Event, p: nat)
    requires Shaped(t)
  {
    && SetOf(e.ip) == SetOf(p) && e.taken && !Lookup(t, e.ip).hit
    && VacantFrom(t[SetOf(p)], 0) == |t[SetOf(p)]|
  }

  function Failures(t: Table, p: nat, es: seq<Event>, n: nat): nat
    requires Shaped(t) && n <= |es|
  {
    if n == 0 then 0
    else Failures(t, p, es, n - 1) + if FailsIn(Run(t, es, n - 1), es[n - 1], p) then 1 else 0
  }

  ghost predicate UniqueWay(row: Row, tag: nat, w: nat) {
    w < |row| && row[w].tag == tag && forall j :: 0 <= j < |row| && j != w ==> row[j].tag != tag
  }

  /** The entry just allocated for `p` at the first taken outcome of an execution. */
  ghost predicate JustAllocated(t: Table, p: nat, w: nat) {
    && Shaped(t) && UniqueWay(t[SetOf(p)], TagOf(p), w)
    && t[SetOf(p)][w] == LoopEntry(0, 1, TagOf(p), 0, INIT_AGE)
  }

  /** What the entry holds in each phase. */
  ghost predicate Holds(e: LoopEntry, trips: nat, ph: Phase) {
    && ph.taken <= trips && e.curr == ph.taken
    && if ph.rounds == 0 then e.past == 0 && e.confidence == 0 && ph.taken >= 1
       else e.past == trips && e.confidence == if ph.rounds < 3 then ph.rounds else 3
  }

  ghost predicate Tracks(t: Table, p: nat, trips: nat, ph: Phase, failures: nat, w: nat) {
    && Shaped(t) && UniqueWay(t[SetOf(p)], TagOf(p), w)
    && Holds(t[SetOf(p)][w], trips, ph)
    && t[SetOf(p)][w].age <= INIT_AGE <= t[SetOf(p)][w].age + failures
  }

  /** A taken branch that misses while a way is free is tracked from then on. */
  lemma AllocationTracks(t: Table, p: nat, trips: nat)
    requires Shaped(t) && !Lookup(t, p).hit && VacantFrom(t[SetOf(p)], 0) < NUM_WAYS
    ensures JustAllocated(Step(t, Event(p, true)), p, VacantFrom(t[SetOf(p)], 0))
  {
  }

  /** With a nonzero tag, the first taken outcome after reset misses and finds a free way. */
  lemma ResetAllocates(t: Table, p: nat)
    requires Shaped(t) && TagOf(p) != 0
    requires forall i, j :: 0 <= i < NUM_SETS && 0 <= j < NUM_WAYS ==> t[i][j] == LoopEntry(0, 0, 0, 0, 0)
    ensures JustAllocated(Step(t, Event(p, true)), p, 0)
  {
    assert VacantFrom(t[SetOf(p)], 0) == 0;
    AllocationTracks(t, p, 1);
  }

  /** The unique way is the one a lookup finds. */
  lemma LookupUnique(t: Table, p: nat, w: nat)
    requires Shaped(t) && UniqueWay(t[SetOf(p)], TagOf(p), w)
    ensures Lookup(t, p).hit && Lookup(t, p).way == w && Lookup(t, p).index == SetOf(p)
  {
  }

  /** In a tracked loop the entry is never surprised. */
  lemma OwnEntry(e: LoopEntry, trips: nat, ph: Phase, taken: bool)
    requires 1 <= trips <= MAX_ITER && Holds(e, trips, ph) && taken == (ph.taken < trips) && 0 < e.age <= INIT_AGE
    ensures var e' := Updated(e, LoopInfo(true, 0, 0, e.curr != e.past, e.confidence == MAX_CONFIDENCE), taken);
      Holds(e', trips, Advance(ph, taken)) && e.age <= e'.age <= INIT_AGE && e'.tag == e.tag
  {
  }

  lemma OwnStep(t: Table, p: nat, trips: nat, ph: Phase, failures: nat, w: nat, taken: bool)
    requires Tracks(t, p, trips, ph, failures, w) && failures < INIT_AGE
    requires 1 <= trips <= MAX_ITER && taken == (ph.taken < trips)
    ensures Tracks(Step(t, Event(p, taken)), p, trips, Advance(ph, taken), failures, w)
    ensures !FailsIn(t, Event(p, taken), p)
  {
    LookupUnique(t, p, w);
    OwnEntry(t[SetOf(p)][w], trips, ph, taken);
    hide Holds, Advance, Confirm, Count;
  }

  /** Other branches leave the entry alone but for its age. */
  lemma OtherStep(t: Table, p: nat, trips: nat, ph: Phase, failures: nat, w: nat, e: Event)
    requires Tracks(t, p, trips, ph, failures, w) && failures < INIT_AGE
    requires SetOf(e.ip) != SetOf(p) || TagOf(e.ip) != TagOf(p)
    ensures Tracks(Step(t, e), p, trips, ph, failures + if FailsIn(t, e, p) then 1 else 0, w)
  {
    TagKept();
    hide Holds, Confirm, Count, Updated;
    HoldsAged(t[SetOf(p)][w], trips, ph);
    var info := Lookup(t, e.ip);
    if !info.hit && e.taken && SetOf(e.ip) == SetOf(p) {
      assert VacantFrom(t[SetOf(p)], 0) != w;
    }
  }

  lemma TagKept()
    ensures forall e, info, taken :: Updated(e, info, taken).tag == e.tag
  {
  }

  lemma HoldsAged(e: LoopEntry, trips: nat, ph: Phase)
    requires Holds(e, trips, ph)
    ensures Holds(Younger(e), trips, ph)
  {
  }

  /** The entry tracks the loop through any interleaving. */
  lemma {:induction false} TracksAll(t: Table, p: nat, trips: nat, es: seq<Event>, n: nat, w: nat)
    requires JustAllocated(t, p, w) && 1 <= trips <= MAX_ITER && n <= |es|
    requires ConstantTrip(Phase(0, 1), p, trips, es) && Apart(p, es) && Failures(t, p, es, n) < INIT_AGE
    ensures Tracks(Run(t, es, n), p, trips, PhaseAfter(Phase(0, 1), p, es, n), Failures(t, p, es, n), w)
  {
    hide ConstantTrip, Apart, FailsIn, Step;
    if n > 0 {
      TracksAll(t, p, trips, es, n - 1, w);
      var before, ph := Run(t, es, n - 1), PhaseAfter(Phase(0, 1), p, es, n - 1);
      var failures := Failures(t, p, es, n - 1);
      hide Tracks, JustAllocated;
      if es[n - 1].ip == p {
        OwnOutcome(p, trips, es, n - 1);
        OwnStep(before, p, trips, ph, failures, w, es[n - 1].taken);
      } else {
        OtherApart(p, es, n - 1);
        OtherStep(before, p, trips, ph, failures, w, es[n - 1]);
      }
    }
  }

  lemma OwnOutcome(p: nat, trips: nat, es: seq<Event>, n: nat)
    requires ConstantTrip(Phase(0, 1), p, trips, es) && n < |es| && es[n].ip == p
    ensures es[n].taken == (PhaseAfter(Phase(0, 1), p, es, n).taken < trips)
    ensures es[n] == Event(p, es[n].taken)
  {
    hide PhaseAfter;
  }

  lemma OtherApart(p: nat, es: seq<Event>, n: nat)
    requires Apart(p, es) && n < |es| && es[n].ip != p
    ensures SetOf(es[n].ip) != SetOf(p) || TagOf(es[n].ip) != TagOf(p)
  {
  }

  /** From its fourth execution on, every outcome of the loop branch is predicted, and the
      prediction is marked valid. */
  lemma LoopIsExact(t: Table, p: nat, trips: nat, es: seq<Event>, n: nat, w: nat)
    requires JustAllocated(t, p, w) && 1 <= trips <= MAX_ITER && n < |es| && es[n].ip == p
    requires ConstantTrip(Phase(0, 1), p, trips, es) && Apart(p, es) && Failures(t, p, es, n) < INIT_AGE
    requires PhaseAfter(Phase(0, 1), p, es, n).rounds >= 3
    ensures Lookup(Run(t, es, n), p).valid && Lookup(Run(t, es, n), p).prediction == es[n].taken
  {
    TracksAll(t, p, trips, es, n, w);
    OwnOutcome(p, trips, es, n);
    LookupUnique(Run(t, es, n), p, w);
    hide Run, PhaseAfter, ConstantTrip, Apart, Failures;
  }

  /** The earlier executions are never marked valid, so the loop predictor stays silent. */
  lemma LoopIsSilentBefore(t: Table, p: nat, trips: nat, es: seq<Event>, n: nat, w: nat)
    requires JustAllocated(t, p, w) && 1 <= trips <= MAX_ITER && n < |es| && es[n].ip == p
    requires ConstantTrip(Phase(0, 1), p, trips, es) && Apart(p, es) && Failures(t, p, es, n) < INIT_AGE
    requires PhaseAfter(Phase(0, 1), p, es, n).rounds < 3
    ensures !Lookup(Run(t, es, n), p).valid
  {
    TracksAll(t, p, trips, es, n, w);
    LookupUnique(Run(t, es, n), p, w);
    hide Run, PhaseAfter, ConstantTrip, Apart, Failures;
  }

  // ---- tracked from the middle -----------------------------------------------------------

  /** No other branch uses the set of `p`. */
  ghost predicate AloneInSet(p: nat, es: seq<Event>) {
    forall i :: 0 <= i < |es| && es[i].ip != p ==> SetOf(es[i].ip) != SetOf(p)
  }

  /** The entry believes in `m` trips, or has just been disabused: the count is always cut at
      the wrong place, alternately `m` and `trips - m` long. */
  ghost predicate Misled(e: LoopEntry, trips: nat, taken: nat, m: nat) {
    && 1 <= m < trips && taken <= trips
    && if taken <= m then e.past == m && e.curr == taken && e.confidence == 1
       else e.past == 0 && e.curr == taken - m && e.confidence == 0
  }

  ghost predicate Astray(t: Table, p: nat, trips: nat, taken: nat, m: nat, w: nat) {
    && Shaped(t) && UniqueWay(t[SetOf(p)], TagOf(p), w) && Misled(t[SetOf(p)][w], trips, taken, m)
  }

  lemma MisledEntry(e: LoopEntry, trips: nat, ph: Phase, m: nat, taken: bool)
    requires trips <= MAX_ITER && Misled(e, trips, ph.taken, m) && taken == (ph.taken < trips)
    ensures Misled(Updated(e, LoopInfo(true, 0, 0, e.curr != e.past, e.confidence == MAX_CONFIDENCE), taken), trips,
                   Advance(ph, taken).taken, if taken then m else trips - m)
  {
  }

  lemma AstrayStep(t: Table, p: nat, trips: nat, ph: Phase, m: nat, w: nat, taken: bool)
    requires Astray(t, p, trips, ph.taken, m, w) && trips <= MAX_ITER && taken == (ph.taken < trips)
    ensures Astray(Step(t, Event(p, taken)), p, trips, Advance(ph, taken).taken, if taken then m else trips - m, w)
  {
    LookupUnique(t, p, w);
    MisledEntry(t[SetOf(p)][w], trips, ph, m, taken);
    hide Misled, Confirm, Count, Advance;
  }

  lemma {:induction false} StaysAstray(t: Table, p: nat, trips: nat, first: nat, es: seq<Event>, n: nat, w: nat) returns (m: nat)
    requires JustAllocated(t, p, w) && 1 < first <= trips <= MAX_ITER && n <= |es|
    requires ConstantTrip(Phase(0, first), p, trips, es) && AloneInSet(p, es)
    ensures Astray(Run(t, es, n), p, trips, PhaseAfter(Phase(0, first), p, es, n).taken, m, w)
  {
    if n == 0 {
      m := first - 1;
    } else {
      m := StaysAstray(t, p, trips, first, es, n - 1, w);
      var before, ph := Run(t, es, n - 1), PhaseAfter(Phase(0, first), p, es, n - 1);
      if es[n - 1].ip == p {
        assert es[n - 1] == Event(p, es[n - 1].taken);
        AstrayStep(before, p, trips, ph, m, w, es[n - 1].taken);
        m := if es[n - 1].taken then m else trips - m;
      } else {
        assert SetOf(es[n - 1].ip) != SetOf(p);
        hide Misled;
      }
    }
  }

  /** Tracked from any later taken outcome of an execution, the loop is never predicted: the
      entry's confidence never passes one. */
  lemma MidLoopNeverConfident(t: Table, p: nat, trips: nat, first: nat, es: seq<Event>, n: nat, w: nat)
    requires JustAllocated(t, p, w) && 1 < first <= trips <= MAX_ITER && n <= |es|
    requires ConstantTrip(Phase(0, first), p, trips, es) && AloneInSet(p, es)
    ensures Lookup(Run(t, es, n), p).hit && !Lookup(Run(t, es, n), p).valid
  {
    var m := StaysAstray(t, p, trips, first, es, n, w);
    LookupUnique(Run(t, es, n), p, w);
  }

  // ---- surprises ---------------------------------------------------------------------------

  /** An entry after an outcome of its own branch, looked up before. */
  function Observed(e: LoopEntry, taken: bool): LoopEntry {
    Updated(e, LoopInfo(true, 0, 0, e.curr != e.past, e.confidence == MAX_CONFIDENCE), taken)
  }

  function ObservedAll(e: LoopEntry, outcomes: seq<bool>): LoopEntry {
    if outcomes == [] then e else Observed(ObservedAll(e, outcomes[..|outcomes| - 1]), outcomes[|outcomes| - 1])
  }

  /** A confident prediction that turns out wrong makes the entry forget the count it had, lose
      all confidence and become free to be replaced; it counts the present outcome anew. */
  lemma SurpriseForgets(e: LoopEntry, taken: bool)
    requires e.confidence == MAX_CONFIDENCE && (e.curr != e.past) != taken
    ensures var e' := Observed(e, taken);
      e'.past == 0 && e'.confidence == 0 && e'.age == 0 && e'.tag == e.tag && e'.curr == (if taken then 1 else 0)
  {
  }

  /** Whatever the outcomes: confidence rises only when the branch falls through, by one each
      time, so a prediction counts again only after three more exits. */
  lemma {:induction false} ConfidenceIsEarned(e: LoopEntry, outcomes: seq<bool>)
    ensures ObservedAll(e, outcomes).confidence <= e.confidence + Exits(outcomes)
    ensures e.confidence <= MAX_CONFIDENCE ==> ObservedAll(e, outcomes).confidence <= MAX_CONFIDENCE
  {
    if outcomes != [] {
      ConfidenceIsEarned(e, outcomes[..|outcomes| - 1]);
    }
  }

  function Exits(outcomes: seq<bool>): nat {
    if outcomes == [] then 0 else Exits(outcomes[..|outcomes| - 1]) + if outcomes[|outcomes| - 1] then 0 else 1
  }

  /** `n` executions of `trips` taken outcomes each. */
  function Executions(trips: nat, n: nat): seq<bool> {
    if n == 0 then [] else Executions(trips, n - 1) + seq(trips, _ => true) + [false]
  }

  lemma {:induction false} ObservedMore(e: LoopEntry, a: seq<bool>, b: seq<bool>)
    ensures ObservedAll(e, a + b) == ObservedAll(ObservedAll(e, a), b)
  {
    if b == [] {
      assert a + b == a;
    } else {
      ObservedMore(e, a, b[..|b| - 1]);
      assert (a + b)[..|a + b| - 1] == a + b[..|b| - 1];
    }
  }

  /** Within an execution the entry counts the taken outcomes. */
  lemma {:induction false} CountsUp(e: LoopEntry, trips: nat, j: nat)
    requires j <= trips <= MAX_ITER && e.curr == 0 && (e.past == 0 || e.past == trips) && (e.past == 0 ==> e.confidence == 0)
    ensures var e' := ObservedAll(e, seq(j, _ => true));
      e'.curr == j && e'.past == e.past && e'.confidence == e.confidence
  {
    if j > 0 {
      CountsUp(e, trips, j - 1);
      assert seq(j, _ => true)[..j - 1] == seq(j - 1, _ => true);
    }
  }

  /** An entry that was made to forget learns the new trip count like a fresh one. */
  lemma {:induction false} RelearnsRounds(e: LoopEntry, trips: nat, n: nat)
    requires e.past == 0 && e.curr == 0 && e.confidence == 0 && 1 <= trips <= MAX_ITER && n >= 1
    ensures var e' := ObservedAll(e, Executions(trips, n));
      e'.curr == 0 && e'.past == trips && e'.confidence == if n < 3 then n else 3
    decreases n
  {
    var before := if n == 1 then e else ObservedAll(e, Executions(trips, n - 1));
    if n > 1 {
      RelearnsRounds(e, trips, n - 1);
    }
    var run := seq(trips, _ => true);
    CountsUp(before, trips, trips);
    assert Executions(trips, n) == Executions(trips, n - 1) + (run + [false]);
    ObservedMore(e, Executions(trips, n - 1), run + [false]);
    ObservedMore(before, run, [false]);
    assert [false][..0] == [];
    LastObserved(ObservedAll(before, run), false);
  }

  lemma LastObserved(e: LoopEntry, taken: bool)
    ensures ObservedAll(e, [taken]) == Observed(e, taken)
  {
    assert [taken][..0] == [];
  }

  /** After a surprise that ended an execution early, a branch that then keeps a new trip count
      is predicted confidently and without error from the fourth execution on. */
  lemma RelearnsAfterSurprise(e: LoopEntry, trips: nat, n: nat, j: nat)
    requires e.confidence == MAX_CONFIDENCE && e.curr != e.past && 1 <= trips <= MAX_ITER && n >= 3 && j <= trips
    ensures var e' := ObservedAll(Observed(e, false), Executions(trips, n) + seq(j, _ => true));
      e'.confidence == MAX_CONFIDENCE && (e'.curr != e'.past <==> j < trips)
  {
    SurpriseForgets(e, false);
    var e0 := Observed(e, false);
    RelearnsRounds(e0, trips, n);
    CountsUp(ObservedAll(e0, Executions(trips, n)), trips, j);
    ObservedMore(e0, Executions(trips, n), seq(j, _ => true));
  }

  /** A set in which every way is in use gets one step older with each branch it turns away. */
  lemma TurnedAwayAges(row: Row, tag: nat)
    requires forall j :: 0 <= j < |row| ==> row[j].age > 0
    ensures |Allocate(row, tag)| == |row|
    ensures forall j :: 0 <= j < |row| ==> Allocate(row, tag)[j] == row[j].(age := row[j].age - 1)
  {
  }
}
