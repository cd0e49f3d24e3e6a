/** Fetch after a mispredicted branch: nothing behind the branch is read until it is resolved. */
module FetchStall {
  import opened Prelude
  import opened Instruction
  import opened ProgramOrder

  /** What the target buffer and the direction predictor answer. */
  datatype Prediction = Prediction(target: Address, taken: bool, always: bool) {
    predicate Direction() {
      taken || always
    }
  }

  /** The direction of these branches is a matter of prediction. */
  predicate Directed(b: Branch) {
    b.kind == Conditional || b.kind == Other
  }

  predicate Wrong(b: Branch, p: Prediction) {
    && b.kind != NotBranch
    && ((if p.Direction() then p.target else 0) != b.target || (Directed(b) && b.taken != p.Direction()))
  }

  /** Which branches are mispredicted, where the trace gives taken branches, and no others, a
      target: conditional ones, if the direction is wrong, or the target of a taken one is; of
      the others the taken ones, unless they were predicted taken to their target, and the
      untaken ones that were predicted taken anywhere. Of the first kind, decode sees those with
      only the target wrong. */
  lemma Mispredictions(b: Branch, p: Prediction)
    requires b.taken <==> b.target != 0
    ensures b.kind == NotBranch ==> !Wrong(b, p)
    ensures b.kind == Conditional || b.kind == Other ==>
      (Wrong(b, p) <==> (p.taken || p.always) != b.taken || (b.taken && p.target != b.target))
    ensures b.kind in {DirectJump, Indirect, DirectCall, IndirectCall, Return} && b.taken ==>
      (Wrong(b, p) <==> (!p.taken && !p.always) || p.target != b.target)
    ensures b.kind in {DirectJump, Indirect, DirectCall, IndirectCall, Return} && !b.taken ==>
      (Wrong(b, p) <==> (p.taken || p.always) && p.target != 0)
    ensures (b.kind == Conditional || b.kind == Other) && Wrong(b, p) ==>
      (SeenAtDecode(Guessed(b, p, false)) <==> b.taken && (p.taken || p.always) && p.target != b.target)
    ensures b.kind in {Indirect, IndirectCall, Return} ==> !SeenAtDecode(Guessed(b, p, false))
    ensures b.kind in {DirectJump, DirectCall} ==> SeenAtDecode(Guessed(b, p, false))
  {
  }

  /** Fetch stops behind a branch that is mispredicted, or predicted taken. */
  predicate Stops(b: Branch, p: Prediction, warmup: bool) {
    b.kind != NotBranch && if Wrong(b, p) then !warmup else b.taken
  }

  /** Fetch goes on behind everything that is not a branch, and behind untaken branches predicted
      right; behind a mispredicted one it goes on during warmup only, even if it is taken. */
  lemma FetchGoesOn(b: Branch, p: Prediction, warmup: bool)
    ensures b.kind == NotBranch ==> !Stops(b, p, warmup)
    ensures b.kind != NotBranch && !Wrong(b, p) ==> (Stops(b, p, warmup) <==> b.taken)
    ensures b.kind != NotBranch && Wrong(b, p) ==> (Stops(b, p, warmup) <==> !warmup)
  {
  }

  function Guessed(b: Branch, p: Prediction, warmup: bool): Branch {
    b.(predicted := p.Direction(), mispredicted := b.mispredicted || (Wrong(b, p) && !warmup))
  }

  /** These mispredictions come to light at decode, the others at completion. */
  predicate SeenAtDecode(b: Branch) {
    b.kind == DirectJump || b.kind == DirectCall || (Directed(b) && b.taken == b.predicted)
  }

  predicate Resumes(i: Instr) {
    i.branch.mispredicted && SeenAtDecode(i.branch)
  }

  function Resolved(i: Instr): Instr {
    if Resumes(i) then i.(branch := i.branch.(mispredicted := false)) else i
  }

  /** A mispredicted branch that has neither been seen at decode nor completed. */
  predicate Unresolved(i: Instr) {
    i.branch.mispredicted && !i.completed
  }

  ghost predicate OnlyLast(s: seq<Instr>) {
    forall k :: 0 <= k < |s| - 1 ==> !Unresolved(s[k])
  }

  /** Of the instructions read so far, in program order, only the youngest can be unresolved;
      fetch waits indefinitely exactly while it is. */
  ghost predicate StallInv(resume: Ready, flight: seq<Instr>) {
    && OnlyLast(flight)
    && (resume.Never? <==> flight != [] && Unresolved(flight[|flight| - 1]))
  }

  /** The same for the stages of the pipeline; what has retired is complete. */
  ghost predicate FetchInv(resume: Ready, retired: seq<Instr>, rob: seq<Instr>, dispatch: seq<Instr>, dib: seq<Instr>,
                           dec: seq<Instr>, ifetch: seq<Instr>) {
    StallInv(resume, InFlightOrder(retired, rob, dispatch, dib, dec, ifetch)) && AllCompleted(retired)
  }

  ghost predicate AllCompleted(s: seq<Instr>) {
    forall k :: 0 <= k < |s| ==> s[k].completed
  }

  ghost predicate AllResolved(s: seq<Instr>) {
    forall k :: 0 <= k < |s| ==> !Unresolved(s[k])
  }

  // ---- steps that change nothing about branches --------------------------------------------

  ghost predicate SameFlags(s: seq<Instr>, s': seq<Instr>) {
    && |s| == |s'|
    && forall k :: 0 <= k < |s| ==> Unresolved(s'[k]) == Unresolved(s[k])
  }

  lemma SameFlight(resume: Ready, flight: seq<Instr>, flight': seq<Instr>)
    requires StallInv(resume, flight) && SameFlags(flight, flight')
    ensures StallInv(resume, flight')
  {
  }

  lemma RobStall(resume: Ready, retired: seq<Instr>, rob: seq<Instr>, dispatch: seq<Instr>, dib: seq<Instr>, dec: seq<Instr>,
                 ifetch: seq<Instr>, rob': seq<Instr>)
    requires FetchInv(resume, retired, rob, dispatch, dib, dec, ifetch) && SameFlags(rob, rob')
    ensures FetchInv(resume, retired, rob', dispatch, dib, dec, ifetch)
  {
    hide StallInv, Unresolved;
    SameFlight(resume, InFlightOrder(retired, rob, dispatch, dib, dec, ifetch), InFlightOrder(retired, rob', dispatch, dib, dec, ifetch));
  }

  lemma IfetchStall(resume: Ready, retired: seq<Instr>, rob: seq<Instr>, dispatch: seq<Instr>, dib: seq<Instr>, dec: seq<Instr>,
                    ifetch: seq<Instr>, ifetch': seq<Instr>)
    requires FetchInv(resume, retired, rob, dispatch, dib, dec, ifetch) && SameFlags(ifetch, ifetch')
    ensures FetchInv(resume, retired, rob, dispatch, dib, dec, ifetch')
  {
    hide StallInv, Unresolved;
    SameFlight(resume, InFlightOrder(retired, rob, dispatch, dib, dec, ifetch), InFlightOrder(retired, rob, dispatch, dib, dec, ifetch'));
  }

  lemma RetireStall(resume: Ready, retired: seq<Instr>, rob: seq<Instr>, dispatch: seq<Instr>, dib: seq<Instr>, dec: seq<Instr>,
                    ifetch: seq<Instr>, c: nat)
    requires FetchInv(resume, retired, rob, dispatch, dib, dec, ifetch) && c <= |rob|
    requires forall k :: 0 <= k < c ==> rob[k].completed
    ensures FetchInv(resume, retired + rob[..c], rob[c..], dispatch, dib, dec, ifetch)
  {
    assert retired + rob[..c] + rob[c..] == retired + rob;
  }

  /** The oldest decoded instruction enters the reorder buffer as `i`. */
  lemma DispatchStall(resume: Ready, retired: seq<Instr>, rob: seq<Instr>, dispatch: seq<Instr>, dib: seq<Instr>, dec: seq<Instr>,
                      ifetch: seq<Instr>, i: Instr)
    requires FetchInv(resume, retired, rob, dispatch, dib, dec, ifetch)
    requires dispatch != [] && Unresolved(i) == Unresolved(dispatch[0])
    ensures FetchInv(resume, retired, rob + [i], dispatch[1..], dib, dec, ifetch)
  {
    hide StallInv, Unresolved;
    SameFlight(resume, InFlightOrder(retired, rob, dispatch, dib, dec, ifetch),
               InFlightOrder(retired, rob + [i], dispatch[1..], dib, dec, ifetch));
  }

  lemma EmptyStall(resume: Ready)
    requires resume.At?
    ensures FetchInv(resume, [], [], [], [], [], [])
  {
  }

  // ---- merging reads identifiers only -------------------------------------------------------

  ghost predicate SameIds(s: seq<Instr>, s': seq<Instr>) {
    |s| == |s'| && forall k :: 0 <= k < |s| ==> s'[k].id == s[k].id
  }

  /** Ranges with the same identifiers merge in the same way: place `k` of both merges is taken
      by the same place of the same range. */
  lemma {:induction false} MergeTogether(x: seq<Instr>, x': seq<Instr>, y: seq<Instr>, y': seq<Instr>, k: nat) returns (left: bool, j: nat)
    requires SameIds(x, x') && SameIds(y, y') && k < |x| + |y|
    ensures if left then j < |x| && Merge(x, y)[k] == x[j] && Merge(x', y')[k] == x'[j]
            else j < |y| && Merge(x, y)[k] == y[j] && Merge(x', y')[k] == y'[j]
    decreases |x| + |y|
  {
    if x == [] {
      left, j := false, k;
    } else if y == [] {
      left, j := true, k;
    } else if y[0].id < x[0].id {
      left, j := false, 0;
      if k > 0 {
        left, j := MergeTogether(x, x', y[1..], y'[1..], k - 1);
        j := if left then j else j + 1;
      }
    } else {
      left, j := true, 0;
      if k > 0 {
        left, j := MergeTogether(x[1..], x'[1..], y, y', k - 1);
        j := if left then j + 1 else j;
      }
    }
  }

  lemma MergeFlags(x: seq<Instr>, x': seq<Instr>, y: seq<Instr>, y': seq<Instr>)
    requires SameIds(x, x') && SameIds(y, y') && SameFlags(x, x') && SameFlags(y, y')
    ensures SameFlags(Merge(x, y), Merge(x', y'))
  {
    hide Unresolved, Merge;
    forall k | 0 <= k < |x| + |y| ensures Unresolved(Merge(x', y')[k]) == Unresolved(Merge(x, y)[k]) {
      var left, j := MergeTogether(x, x', y, y', k);
    }
  }

  /** Promotion: the first `n` fetched instructions split over the two buffers. */
  lemma PromoteStall(resume: Ready, retired: seq<Instr>, rob: seq<Instr>, dispatch: seq<Instr>, dib: seq<Instr>, dec: seq<Instr>,
                     ifetch: seq<Instr>, n: nat, dib': seq<Instr>, dec': seq<Instr>)
    requires FetchInv(resume, retired, rob, dispatch, dib, dec, ifetch) && n <= |ifetch|
    requires InProgramOrder(ifetch) && Before(dib, ifetch) && Before(dec, ifetch)
    requires SameIds(dib + Decoded(ifetch[..n], true), dib') && SameFlags(dib + Decoded(ifetch[..n], true), dib')
    requires SameIds(dec + Decoded(ifetch[..n], false), dec') && SameFlags(dec + Decoded(ifetch[..n], false), dec')
    ensures FetchInv(resume, retired, rob, dispatch, dib', dec', ifetch[n..])
  {
    hide StallInv, Unresolved, Merge, Decoded;
    var w := ifetch[..n];
    PromoteBefore(dib, ifetch, n, true);
    PromoteBefore(dib, ifetch, n, false);
    PromoteBefore(dec, ifetch, n, true);
    PromoteBefore(dec, ifetch, n, false);
    MergeSplit(dib, Decoded(w, true), dec, Decoded(w, false));
    MergePartition(w);
    var x, y := dib + Decoded(w, true), dec + Decoded(w, false);
    assert Merge(x, y) + ifetch[n..] == Merge(dib, dec) + ifetch;
    MergeFlags(x, dib', y, dec');
    var early := retired + rob + dispatch;
    assert early + Merge(x, y) + ifetch[n..] == early + Merge(dib, dec) + ifetch;
    SameFlight(resume, early + Merge(x, y) + ifetch[n..], early + Merge(dib', dec') + ifetch[n..]);
  }

  // ---- steps that concern branches ----------------------------------------------------------

  /** Reading the next instruction while fetch does not wait. */
  lemma ReadStall(resume: Ready, retired: seq<Instr>, rob: seq<Instr>, dispatch: seq<Instr>, dib: seq<Instr>, dec: seq<Instr>,
                  ifetch: seq<Instr>, i: Instr, resume': Ready)
    requires FetchInv(resume, retired, rob, dispatch, dib, dec, ifetch) && !resume.Never? && !i.completed
    requires resume' == if i.branch.mispredicted then Never else resume
    ensures FetchInv(resume', retired, rob, dispatch, dib, dec, ifetch + [i])
  {
    var flight := InFlightOrder(retired, rob, dispatch, dib, dec, ifetch);
    assert InFlightOrder(retired, rob, dispatch, dib, dec, ifetch + [i]) == flight + [i];
  }

  /** Completing entry `k`. If it was mispredicted then nothing was read behind it, and fetch
      resumes. */
  lemma CompleteStall(resume: Ready, retired: seq<Instr>, rob: seq<Instr>, dispatch: seq<Instr>, dib: seq<Instr>, dec: seq<Instr>,
                      ifetch: seq<Instr>, k: nat, rob': seq<Instr>, resume': Ready)
    requires FetchInv(resume, retired, rob, dispatch, dib, dec, ifetch) && k < |rob| && !rob[k].completed
    requires rob' == rob[k := rob[k].(completed := true)]
    requires if rob[k].branch.mispredicted then resume'.At? else resume' == resume
    ensures FetchInv(resume', retired, rob', dispatch, dib, dec, ifetch)
  {
    var flight, flight' := InFlightOrder(retired, rob, dispatch, dib, dec, ifetch), InFlightOrder(retired, rob', dispatch, dib, dec, ifetch);
    hide InFlightOrder, StallInv;
    RobInFlight(retired, rob, dispatch, dib, dec, ifetch, rob', k);
    CompletedFlight(resume, flight, flight', |retired| + k, resume');
  }

  lemma RobInFlight(retired: seq<Instr>, rob: seq<Instr>, dispatch: seq<Instr>, dib: seq<Instr>, dec: seq<Instr>, ifetch: seq<Instr>,
                    rob': seq<Instr>, k: nat)
    requires k < |rob| == |rob'| && rob' == rob[k := rob'[k]]
    ensures var flight := InFlightOrder(retired, rob, dispatch, dib, dec, ifetch);
      && |retired| + k < |flight| && flight[|retired| + k] == rob[k]
      && InFlightOrder(retired, rob', dispatch, dib, dec, ifetch) == flight[|retired| + k := rob'[k]]
  {
  }

  lemma CompletedFlight(resume: Ready, flight: seq<Instr>, flight': seq<Instr>, p: nat, resume': Ready)
    requires StallInv(resume, flight) && p < |flight| && !flight[p].completed
    requires flight' == flight[p := flight[p].(completed := true)]
    requires if flight[p].branch.mispredicted then resume'.At? else resume' == resume
    ensures StallInv(resume', flight')
  {
  }

  lemma ResolvedFlag(i: Instr)
    ensures Resolved(i).id == i.id && OpOf(Resolved(i)) == OpOf(i)
    ensures Unresolved(Resolved(i)) <==> Unresolved(i) && !SeenAtDecode(i.branch)
  {
  }

  ghost predicate AreDecoded(y: seq<Instr>, y': seq<Instr>) {
    |y| == |y'| && forall k :: 0 <= k < |y| ==> y'[k] == Resolved(y[k])
  }

  lemma DecodedIds(y: seq<Instr>, y': seq<Instr>)
    requires AreDecoded(y, y')
    ensures SameIds(y, y')
  {
    hide Resolved;
    forall k | 0 <= k < |y| ensures y'[k].id == y[k].id {
      ResolvedFlag(y[k]);
    }
  }

  /** Decoding branches none of which is seen to be mispredicted. */
  lemma NoneSeen(x: seq<Instr>, y: seq<Instr>, y': seq<Instr>)
    requires AreDecoded(y, y') && forall k :: 0 <= k < |y| ==> !Resumes(y[k])
    ensures SameFlags(Merge(x, y), Merge(x, y'))
  {
    DecodedIds(y, y');
    hide Unresolved, Merge, Resolved, Resumes;
    forall k | 0 <= k < |x| + |y| ensures Unresolved(Merge(x, y')[k]) == Unresolved(Merge(x, y)[k]) {
      var left, j := MergeTogether(x, x, y, y', k);
      if !left {
        KeptBranch(y[j]);
      }
    }
  }

  lemma KeptBranch(i: Instr)
    requires !Resumes(i)
    ensures Resolved(i) == i
  {
  }

  /** Decoding a cut whose last entry is seen to be mispredicted. */
  lemma LastSeen(x: seq<Instr>, y: seq<Instr>, y': seq<Instr>, m: seq<Instr>, i: Instr)
    requires AreDecoded(y, y') && i !in x && Resumes(i)
    requires m == Merge(x, y) && OnlyLast(m) && m != [] && m[|m| - 1] == i
    ensures AllResolved(Merge(x, y'))
  {
    hide Unresolved, Merge, Resolved, Resumes;
    forall k | 0 <= k < |x| + |y| ensures !Unresolved(Merge(x, y')[k]) {
      DecodedPlace(x, y, y', i, k);
    }
  }

  /** Decoding resolves nothing but makes nothing unresolved; branch `i` it resolves. */
  lemma DecodedPlace(x: seq<Instr>, y: seq<Instr>, y': seq<Instr>, i: Instr, k: nat)
    requires AreDecoded(y, y') && i !in x && Resumes(i) && k < |x| + |y|
    ensures Unresolved(Merge(x, y')[k]) ==> Unresolved(Merge(x, y)[k]) && Merge(x, y)[k] != i
  {
    DecodedIds(y, y');
    SeenFirst(i);
    hide Unresolved, Merge, Resolved, Resumes, SeenAtDecode;
    var left, j := MergeTogether(x, x, y, y', k);
    if left {
      assert x[j] in x;
    } else {
      ResolvedFlag(y[j]);
    }
  }

  lemma SeenFirst(i: Instr)
    ensures Resumes(i) ==> SeenAtDecode(i.branch)
    ensures Resumes(i) && !i.completed ==> Unresolved(i)
  {
  }

  /** Decoding a cut: a branch that is seen to be mispredicted was the youngest one read, and
      fetch resumes. */
  lemma DecodeStall(resume: Ready, retired: seq<Instr>, rob: seq<Instr>, dispatch: seq<Instr>, dib: seq<Instr>, dec: seq<Instr>,
                    ifetch: seq<Instr>, a: nat, b: nat, y: seq<Instr>, taken: seq<Instr>, resume': Ready)
    requires FetchInv(resume, retired, rob, dispatch, dib, dec, ifetch) && IsCut(dib, dec, a, b)
    requires InProgramOrder(dib) && InProgramOrder(dec) && Apart(dib, dec) && NoneCompleted(dec)
    requires AreDecoded(dec[..b], y) && SameFlags(Merge(dib[..a], y), taken)
    requires if AnyResumes(dec[..b]) then resume'.At? else resume' == resume
    ensures FetchInv(resume', retired, rob, dispatch + taken, dib[a..], dec[b..], ifetch)
  {
    DecodedFlight(retired, rob, dispatch, dib, dec, ifetch, a, b, taken);
    assert NoneCompleted(dec[..b]) && Foreign(dib[..a], dec[..b]);
    hide IsCut, InFlightOrder, Merge, InProgramOrder, Apart, AreDecoded, StallInv, SameFlags, AnyResumes, NoneCompleted, Foreign;
    DecodedSection(resume, retired + rob + dispatch, dib[..a], dec[..b], y, Merge(dib[a..], dec[b..]) + ifetch, taken, resume');
  }

  ghost predicate Foreign(x: seq<Instr>, y: seq<Instr>) {
    forall k :: 0 <= k < |y| ==> y[k] !in x
  }

  lemma DecodedSection(resume: Ready, early: seq<Instr>, x: seq<Instr>, y: seq<Instr>, y': seq<Instr>, late: seq<Instr>, taken: seq<Instr>,
                       resume': Ready)
    requires StallInv(resume, early + Merge(x, y) + late) && AreDecoded(y, y') && Foreign(x, y) && NoneCompleted(y)
    requires SameFlags(Merge(x, y'), taken) && if AnyResumes(y) then resume'.At? else resume' == resume
    ensures StallInv(resume', early + taken + late)
  {
    hide Merge, Unresolved, Resolved, Resumes, AreDecoded, StallInv;
    if AnyResumes(y) {
      var k :| 0 <= k < |y| && Resumes(y[k]);
      SeenFirst(y[k]);
      SeenLast(resume, early, x, y, y', late, y[k]);
      TakenAll(resume', early, Merge(x, y'), taken, late);
    } else {
      NoneSeen(x, y, y');
      SameFlight(resume, early + Merge(x, y) + late, early + taken + late);
    }
  }

  predicate AnyResumes(s: seq<Instr>) {
    exists k :: 0 <= k < |s| && Resumes(s[k])
  }

  ghost predicate NoneCompleted(s: seq<Instr>) {
    forall k :: 0 <= k < |s| ==> !s[k].completed
  }

  lemma DecodedFlight(retired: seq<Instr>, rob: seq<Instr>, dispatch: seq<Instr>, dib: seq<Instr>, dec: seq<Instr>,
                      ifetch: seq<Instr>, a: nat, b: nat, taken: seq<Instr>)
    requires IsCut(dib, dec, a, b) && InProgramOrder(dib) && InProgramOrder(dec)
    ensures InFlightOrder(retired, rob, dispatch, dib, dec, ifetch)
         == retired + rob + dispatch + Merge(dib[..a], dec[..b]) + (Merge(dib[a..], dec[b..]) + ifetch)
    ensures InFlightOrder(retired, rob, dispatch + taken, dib[a..], dec[b..], ifetch)
         == retired + rob + dispatch + taken + (Merge(dib[a..], dec[b..]) + ifetch)
  {
    CutMerge(dib, dec, a, b);
    hide IsCut, Merge, InProgramOrder;
  }

  lemma TakenAll(resume: Ready, early: seq<Instr>, m: seq<Instr>, taken: seq<Instr>, late: seq<Instr>)
    requires resume.At? && AllResolved(early) && AllResolved(m) && late == [] && SameFlags(m, taken)
    ensures StallInv(resume, early + taken + late)
  {
  }

  lemma SeenLast(resume: Ready, early: seq<Instr>, x: seq<Instr>, y: seq<Instr>, y': seq<Instr>, late: seq<Instr>, i: Instr)
    requires StallInv(resume, early + Merge(x, y) + late) && AreDecoded(y, y')
    requires i in y && i !in x && Resumes(i) && Unresolved(i)
    ensures late == [] && AllResolved(early) && AllResolved(Merge(x, y'))
  {
    hide Merge, Unresolved, Resumes, AreDecoded;
    var m := MergeHas(x, y, i);
    var flight := early + Merge(x, y) + late;
    assert flight[|early| + m] == i;
    assert |early| + m == |flight| - 1;
    forall k | 0 <= k < |early| ensures !Unresolved(early[k]) {
      assert flight[k] == early[k];
    }
    forall k | 0 <= k < |x| + |y| - 1 ensures !Unresolved(Merge(x, y)[k]) {
      assert flight[|early| + k] == Merge(x, y)[k];
    }
    LastSeen(x, y, y', Merge(x, y), i);
  }

  // ---- what this means -----------------------------------------------------------------------

  /** Fetch waits exactly while a mispredicted branch is unresolved in some stage; the branch is
      then the last instruction of the program read so far, so there is one, with nothing behind
      it in any stage. */
  lemma StalledByYoungest(resume: Ready, retired: seq<Instr>, rob: seq<Instr>, dispatch: seq<Instr>, dib: seq<Instr>, dec: seq<Instr>,
                          ifetch: seq<Instr>, program: seq<Op>)
    requires FetchInv(resume, retired, rob, dispatch, dib, dec, ifetch)
    requires PipelineInv(retired, rob, dispatch, dib, dec, ifetch, program)
    ensures resume.Never? <==> exists i :: i in rob + dispatch + dib + dec + ifetch && Unresolved(i)
    ensures forall i :: i in rob + dispatch + dib + dec + ifetch && Unresolved(i) ==> program != [] && OpOf(i) == program[|program| - 1]
  {
    var flight := InFlightOrder(retired, rob, dispatch, dib, dec, ifetch);
    forall i | i in rob + dispatch + dib + dec + ifetch && Unresolved(i)
      ensures resume.Never? && program != [] && OpOf(i) == program[|program| - 1]
    {
      var p := PlaceOf(retired, rob, dispatch, dib, dec, ifetch, i);
      assert Ops(flight)[p] == OpOf(flight[p]);
    }
    if resume.Never? {
      var i := flight[|flight| - 1];
      StageOf(retired, rob, dispatch, dib, dec, ifetch, |flight| - 1);
      assert i in rob + dispatch + dib + dec + ifetch && Unresolved(i);
    }
  }

  lemma PlaceOf(retired: seq<Instr>, rob: seq<Instr>, dispatch: seq<Instr>, dib: seq<Instr>, dec: seq<Instr>, ifetch: seq<Instr>,
                i: Instr) returns (p: nat)
    requires i in rob + dispatch + dib + dec + ifetch
    ensures p < |InFlightOrder(retired, rob, dispatch, dib, dec, ifetch)| && InFlightOrder(retired, rob, dispatch, dib, dec, ifetch)[p] == i
  {
    var early := retired + rob + dispatch;
    if i in rob {
      var k :| 0 <= k < |rob| && rob[k] == i;
      p := |retired| + k;
    } else if i in dispatch {
      var k :| 0 <= k < |dispatch| && dispatch[k] == i;
      p := |retired| + |rob| + k;
    } else if i in ifetch {
      var k :| 0 <= k < |ifetch| && ifetch[k] == i;
      p := |early| + |dib| + |dec| + k;
    } else {
      var k := MergeHas(dib, dec, i);
      p := |early| + k;
    }
  }

  lemma StageOf(retired: seq<Instr>, rob: seq<Instr>, dispatch: seq<Instr>, dib: seq<Instr>, dec: seq<Instr>, ifetch: seq<Instr>, p: nat)
    requires p < |InFlightOrder(retired, rob, dispatch, dib, dec, ifetch)|
    ensures var i := InFlightOrder(retired, rob, dispatch, dib, dec, ifetch)[p];
      i in retired || i in rob + dispatch + dib + dec + ifetch
  {
    var early := retired + rob + dispatch;
    if |early| <= p < |early| + |dib| + |dec| {
      MergeFrom(dib, dec, p - |early|);
    }
  }
}
