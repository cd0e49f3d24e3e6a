/** L-TAGE: the loop predictor overrides TAGE whenever it is confident. */
module LTageUnit {
  import opened BitStrings
  import opened LoopPrediction
  import opened LoopExactness
  import T = TagePrediction
  import U = TageUnit
  import F = FoldedHistory

  /** The combined prediction. */
  ghost function Predicted(t: Table, s: T.State, ip: Bits): bool
    requires LoopPrediction.Shaped(t) && T.ValidState(s) && |ip| == F.DIGITS
  {
    if Lookup(t, ToNat(ip)).valid then Lookup(t, ToNat(ip)).prediction else T.Ultimate(s, ip)
  }

  /** The loop predictor's record is that of the branch's lookup. */
  ghost predicate Records(info: LoopInfo, t: Table, ip: nat)
    requires LoopPrediction.Shaped(t)
  {
    && info.hit == Lookup(t, ip).hit && info.valid == Lookup(t, ip).valid
    && (info.hit ==> info == Lookup(t, ip))
  }

  /** What the record holds besides is not used. */
  lemma RecordedStep(info: LoopInfo, t: Table, ip: nat, taken: bool)
    requires LoopPrediction.Shaped(t) && Records(info, t, ip)
    ensures Update(t, info, ip, taken) == Step(t, Event(ip, taken))
  {
  }

  class LTage {
    const tage: U.Tage
    const loopPredictor: LoopPredictor

    ghost predicate Valid()
      reads this, tage, tage.table, tage.bimodalTable, loopPredictor, loopPredictor.component
    {
      tage.Valid() && loopPredictor.Valid()
    }

    /** `ip` is the branch that both predictors looked up last. */
    ghost predicate Pending(ip: Bits)
      requires Valid() && |ip| == F.DIGITS
      reads this, tage, tage.table, tage.bimodalTable, loopPredictor, loopPredictor.component
    {
      && Records(loopPredictor.info, loopPredictor.View(), ToNat(ip))
      && T.Describes(tage.info, tage.View(), ip)
    }

    constructor ()
      ensures Valid()
      ensures fresh(tage) && fresh(tage.table) && fresh(tage.bimodalTable) && fresh(loopPredictor) && fresh(loopPredictor.component)
      ensures forall i, j :: 0 <= i < NUM_SETS && 0 <= j < NUM_WAYS ==> loopPredictor.View()[i][j] == LoopEntry(0, 0, 0, 0, 0)
    {
      tage := new U.Tage();
      loopPredictor := new LoopPredictor();
    }

    method PredictBranch(ip: Bits) returns (taken: bool)
      requires Valid() && |ip| == F.DIGITS
      modifies tage`info, loopPredictor`info
      ensures Valid() && Pending(ip) && taken == Predicted(loopPredictor.View(), tage.View(), ip)
    {
      hide Lookup, T.Ultimate, T.Describes, ToNat;
      var loopPrediction := loopPredictor.PredictBranch(ToNat(ip));
      var tagePrediction := tage.PredictBranch(ip);
      if loopPredictor.info.valid {
        return loopPrediction;
      }
      return tagePrediction;
    }

    method LastBranchResult(ip: Bits, taken: bool, draw: nat)
      requires Valid() && |ip| == F.DIGITS && Pending(ip)
      modifies loopPredictor.component, tage`branches, tage`path, tage`history, tage`useAlt, tage.table, tage.bimodalTable
      ensures Valid() && loopPredictor.View() == Step(old(loopPredictor.View()), Event(ToNat(ip), taken))
      ensures T.Learns(old(tage.View()), tage.View(), ip, taken, draw)
    {
      hide Records, Update, Step, T.Describes, T.Learns, ToNat;
      RecordedStep(loopPredictor.info, loopPredictor.View(), ToNat(ip), taken);
      loopPredictor.LastBranchResult(ToNat(ip), taken);
      tage.LastBranchResult(ip, taken, draw);
    }
  }

  /** L-TAGE predicts every outcome of a constant-trip loop branch from the fourth execution on,
      whatever state TAGE is in. */
  lemma LTageIsExact(t: Table, ip: Bits, trips: nat, es: seq<Event>, n: nat, w: nat, s: T.State)
    requires |ip| == F.DIGITS && T.ValidState(s) && n < |es| && es[n].ip == ToNat(ip)
    requires JustAllocated(t, ToNat(ip), w) && 1 <= trips <= MAX_ITER
    requires ConstantTrip(Phase(0, 1), ToNat(ip), trips, es) && Apart(ToNat(ip), es) && Failures(t, ToNat(ip), es, n) < INIT_AGE
    requires PhaseAfter(Phase(0, 1), ToNat(ip), es, n).rounds >= 3
    ensures Predicted(Run(t, es, n), s, ip) == es[n].taken
  {
    LoopIsExact(t, ToNat(ip), trips, es, n, w);
  }

  /** While the loop predictor is still counting, TAGE decides. */
  lemma TageDecidesBefore(t: Table, ip: Bits, trips: nat, es: seq<Event>, n: nat, w: nat, s: T.State)
    requires |ip| == F.DIGITS && T.ValidState(s) && n < |es| && es[n].ip == ToNat(ip)
    requires JustAllocated(t, ToNat(ip), w) && 1 <= trips <= MAX_ITER
    requires ConstantTrip(Phase(0, 1), ToNat(ip), trips, es) && Apart(ToNat(ip), es) && Failures(t, ToNat(ip), es, n) < INIT_AGE
    requires PhaseAfter(Phase(0, 1), ToNat(ip), es, n).rounds < 3
    ensures Predicted(Run(t, es, n), s, ip) == T.Ultimate(s, ip)
  {
    LoopIsSilentBefore(t, ToNat(ip), trips, es, n, w);
  }
}
