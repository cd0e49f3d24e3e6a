/** The front of the pipeline: instructions split over two buffers at promotion, by whether the
    decoded-instruction buffer hit, and merge again after decode. */
module ProgramOrder {
  import opened Instruction

  /** What an instruction is, apart from where it is in the pipeline. */
  datatype Op = Op(id: nat, dst: seq<int>, src: seq<int>, dstMem: seq<Address>, srcMem: seq<Address>)

  function OpOf(i: Instr): Op {
    Op(i.id, i.archDst, i.archSrc, i.dstMem, i.srcMem)
  }

  function Ops(s: seq<Instr>): (r: seq<Op>)
    ensures |r| == |s|
  {
    seq(|s|, k requires 0 <= k < |s| => OpOf(s[k]))
  }

  ghost predicate Increasing(s: seq<Op>) {
    forall i, j :: 0 <= i < j < |s| ==> s[i].id < s[j].id
  }

  ghost predicate Before(a: seq<Instr>, b: seq<Instr>) {
    forall i, j :: 0 <= i < |a| && 0 <= j < |b| ==> a[i].id < b[j].id
  }

  lemma OpsConcat(a: seq<Instr>, b: seq<Instr>)
    ensures Ops(a + b) == Ops(a) + Ops(b)
  {
  }

  // ---- merging ---------------------------------------------------------------------------

  /** The standard library's stable merge of two ordered ranges. */
  function Merge(x: seq<Instr>, y: seq<Instr>): (m: seq<Instr>)
    ensures |m| == |x| + |y|
    decreases |x| + |y|
  {
    if x == [] then y
    else if y == [] then x
    else if y[0].id < x[0].id then [y[0]] + Merge(x, y[1..])
    else [x[0]] + Merge(x[1..], y)
  }

  /** The standard library's stable partition, one half at a time. */
  function Decoded(w: seq<Instr>, flag: bool): (r: seq<Instr>)
    ensures |r| <= |w|
  {
    if w == [] then []
    else if w[0].decoded == flag then [w[0]] + Decoded(w[1..], flag)
    else Decoded(w[1..], flag)
  }

  /** Merging reads identifiers only. */
  lemma {:induction false} MergeOps(x: seq<Instr>, x': seq<Instr>, y: seq<Instr>, y': seq<Instr>)
    requires Ops(x) == Ops(x') && Ops(y) == Ops(y')
    ensures Ops(Merge(x, y)) == Ops(Merge(x', y'))
    decreases |x| + |y|
  {
    assert |x| == |x'| && |y| == |y'|;
    if x != [] && y != [] {
      assert Ops(x)[0] == Ops(x')[0] && Ops(y)[0] == Ops(y')[0];
      if y[0].id < x[0].id {
        assert Ops(y[1..]) == Ops(y)[1..] && Ops(y'[1..]) == Ops(y')[1..];
        MergeOps(x, x', y[1..], y'[1..]);
        OpsConcat([y[0]], Merge(x, y[1..]));
        OpsConcat([y'[0]], Merge(x', y'[1..]));
      } else {
        assert Ops(x[1..]) == Ops(x)[1..] && Ops(x'[1..]) == Ops(x')[1..];
        MergeOps(x[1..], x'[1..], y, y');
        OpsConcat([x[0]], Merge(x[1..], y));
        OpsConcat([x'[0]], Merge(x'[1..], y'));
      }
    }
  }

  /** Every element of either range appears in the merge. */
  lemma {:induction false} MergeHas(x: seq<Instr>, y: seq<Instr>, i: Instr) returns (k: nat)
    requires i in x || i in y
    ensures k < |x| + |y| && Merge(x, y)[k] == i
    decreases |x| + |y|
  {
    if x == [] {
      k :| 0 <= k < |y| && y[k] == i;
    } else if y == [] {
      k :| 0 <= k < |x| && x[k] == i;
    } else if y[0].id < x[0].id {
      if i == y[0] {
        k := 0;
      } else {
        k := MergeHas(x, y[1..], i);
        k := k + 1;
      }
    } else if i == x[0] {
      k := 0;
    } else {
      k := MergeHas(x[1..], y, i);
      k := k + 1;
    }
  }

  lemma MergeTakeLeft(x: seq<Instr>, y: seq<Instr>)
    requires x != [] && (y == [] || x[0].id <= y[0].id)
    ensures Merge(x, y) == [x[0]] + Merge(x[1..], y)
  {
    assert y == [] ==> Merge(x[1..], y) == x[1..];
  }

  lemma MergeTakeRight(x: seq<Instr>, y: seq<Instr>)
    requires y != [] && (x == [] || y[0].id < x[0].id)
    ensures Merge(x, y) == [y[0]] + Merge(x, y[1..])
  {
  }

  lemma Associate<T>(h: seq<T>, m: seq<T>, w: seq<T>, r: seq<T>)
    ensures h + m + (w + r) == h + (m + w) + r
  {
  }

  lemma HeadLeft(a: seq<Instr>, x: seq<Instr>, b: seq<Instr>, y: seq<Instr>)
    requires a != [] && (b == [] || a[0].id <= b[0].id) && Before(a, y)
    ensures (a + x)[0] == a[0] && (a + x)[1..] == a[1..] + x
    ensures b + y == [] || (a + x)[0].id <= (b + y)[0].id
  {
    assert b == [] ==> b + y == y;
  }

  lemma SplitLeft(a: seq<Instr>, x: seq<Instr>, b: seq<Instr>, y: seq<Instr>)
    requires a != [] && (b == [] || a[0].id <= b[0].id) && Before(a, y)
    requires Merge(a[1..] + x, b + y) == Merge(a[1..], b) + Merge(x, y)
    ensures Merge(a + x, b + y) == Merge(a, b) + Merge(x, y)
  {
    HeadLeft(a, x, b, y);
    MergeTakeLeft(a + x, b + y);
    MergeTakeLeft(a, b);
    Chain(Merge(a + x, b + y), Merge(a[1..] + x, b + y), Merge(a, b), Merge(a[1..], b), Merge(x, y), a[0]);
  }

  lemma HeadRight(a: seq<Instr>, x: seq<Instr>, b: seq<Instr>, y: seq<Instr>)
    requires b != [] && (a == [] || b[0].id < a[0].id) && Before(b, x)
    ensures (b + y)[0] == b[0] && (b + y)[1..] == b[1..] + y
    ensures a + x == [] || (b + y)[0].id < (a + x)[0].id
  {
    assert a == [] ==> a + x == x;
  }

  lemma Chain(whole: seq<Instr>, tail: seq<Instr>, part: seq<Instr>, partTail: seq<Instr>, rest: seq<Instr>, h: Instr)
    requires whole == [h] + tail && part == [h] + partTail && tail == partTail + rest
    ensures whole == part + rest
  {
  }

  lemma SplitRight(a: seq<Instr>, x: seq<Instr>, b: seq<Instr>, y: seq<Instr>)
    requires b != [] && (a == [] || b[0].id < a[0].id) && Before(b, x)
    requires Merge(a + x, b[1..] + y) == Merge(a, b[1..]) + Merge(x, y)
    ensures Merge(a + x, b + y) == Merge(a, b) + Merge(x, y)
  {
    HeadRight(a, x, b, y);
    MergeTakeRight(a + x, b + y);
    MergeTakeRight(a, b);
    Chain(Merge(a + x, b + y), Merge(a + x, b[1..] + y), Merge(a, b), Merge(a, b[1..]), Merge(x, y), b[0]);
  }

  /** If everything in `a` and `b` precedes everything in `x` and `y`, the merge splits there. */
  lemma {:induction false} MergeSplit(a: seq<Instr>, x: seq<Instr>, b: seq<Instr>, y: seq<Instr>)
    requires Before(a, x) && Before(a, y) && Before(b, x) && Before(b, y)
    ensures Merge(a + x, b + y) == Merge(a, b) + Merge(x, y)
    decreases |a| + |b|
  {
    if a != [] && (b == [] || a[0].id <= b[0].id) {
      MergeSplit(a[1..], x, b, y);
      SplitLeft(a, x, b, y);
    } else if b != [] {
      MergeSplit(a, x, b[1..], y);
      SplitRight(a, x, b, y);
    } else {
      assert a + x == x && b + y == y;
    }
  }

  lemma {:induction false} DecodedFrom(w: seq<Instr>, flag: bool, i: nat)
    requires i < |Decoded(w, flag)|
    ensures Decoded(w, flag)[i] in w && Decoded(w, flag)[i].decoded == flag
  {
    if w[0].decoded == flag {
      if i > 0 {
        DecodedFrom(w[1..], flag, i - 1);
      }
    } else {
      DecodedFrom(w[1..], flag, i);
    }
  }

  lemma {:induction false} DecodedOrdered(w: seq<Instr>, flag: bool)
    requires InProgramOrder(w)
    ensures InProgramOrder(Decoded(w, flag))
  {
    if w != [] {
      DecodedOrdered(w[1..], flag);
      forall i | 0 <= i < |Decoded(w[1..], flag)| ensures w[0].id < Decoded(w[1..], flag)[i].id {
        DecodedFrom(w[1..], flag, i);
      }
    }
  }

  /** Partitioning an ordered window and merging the halves gives the window back. */
  lemma {:induction false} MergePartition(w: seq<Instr>)
    requires InProgramOrder(w)
    ensures Merge(Decoded(w, true), Decoded(w, false)) == w
  {
    if w != [] {
      MergePartition(w[1..]);
      var other := Decoded(w[1..], !w[0].decoded);
      if other != [] {
        DecodedFrom(w[1..], !w[0].decoded, 0);
        assert w[0].id < other[0].id;
      } else if w[0].decoded {
        assert Decoded(w, false) == [] && Merge(Decoded(w, true), []) == Decoded(w, true);
        assert Merge(Decoded(w[1..], true), []) == Decoded(w[1..], true);
      } else {
        assert Decoded(w, true) == [] && Merge([], Decoded(w, false)) == Decoded(w, false);
      }
    }
  }

  /** No instruction is in both ranges. */
  ghost predicate Apart(x: seq<Instr>, y: seq<Instr>) {
    forall i, j :: 0 <= i < |x| && 0 <= j < |y| ==> x[i].id != y[j].id
  }

  lemma PartitionApart(w: seq<Instr>)
    requires InProgramOrder(w)
    ensures Apart(Decoded(w, true), Decoded(w, false))
  {
    forall i, j | 0 <= i < |Decoded(w, true)| && 0 <= j < |Decoded(w, false)|
      ensures Decoded(w, true)[i].id != Decoded(w, false)[j].id
    {
      DecodedFrom(w, true, i);
      DecodedFrom(w, false, j);
    }
  }

  /** Everything in the merge comes from one of the ranges. */
  lemma {:induction false} MergeFrom(x: seq<Instr>, y: seq<Instr>, k: nat)
    requires k < |x| + |y|
    ensures Merge(x, y)[k] in x || Merge(x, y)[k] in y
    decreases |x| + |y|
  {
    if x != [] && y != [] && k > 0 {
      if y[0].id < x[0].id {
        MergeFrom(x, y[1..], k - 1);
      } else {
        MergeFrom(x[1..], y, k - 1);
      }
    }
  }

  // ---- the pipeline invariant ------------------------------------------------------------

  function InFlightOrder(retired: seq<Instr>, rob: seq<Instr>, dispatch: seq<Instr>, dib: seq<Instr>, dec: seq<Instr>,
                         ifetch: seq<Instr>): seq<Instr> {
    retired + rob + dispatch + Merge(dib, dec) + ifetch
  }

  /** Nothing is lost, duplicated or reordered: the stages, oldest first, hold exactly the
      instructions of `program`. */
  ghost predicate PipelineInv(retired: seq<Instr>, rob: seq<Instr>, dispatch: seq<Instr>, dib: seq<Instr>,
                              dec: seq<Instr>, ifetch: seq<Instr>, program: seq<Op>) {
    && Increasing(program)
    && Ops(InFlightOrder(retired, rob, dispatch, dib, dec, ifetch)) == program
    && InProgramOrder(dib) && InProgramOrder(dec) && Apart(dib, dec)
  }

  lemma OpsOrdered(s: seq<Instr>)
    requires Increasing(Ops(s))
    ensures InProgramOrder(s)
  {
    forall i, j | 0 <= i < j < |s| ensures s[i].id < s[j].id {
      assert Ops(s)[i].id < Ops(s)[j].id;
    }
  }

  /** What the invariant says about order between and within the stages. */
  lemma StagesOrdered(retired: seq<Instr>, rob: seq<Instr>, dispatch: seq<Instr>, dib: seq<Instr>, dec: seq<Instr>,
                      ifetch: seq<Instr>, program: seq<Op>)
    requires PipelineInv(retired, rob, dispatch, dib, dec, ifetch, program)
    ensures InProgramOrder(retired + rob + dispatch) && InProgramOrder(ifetch)
    ensures Before(dib, ifetch) && Before(dec, ifetch)
  {
    var m := Merge(dib, dec);
    var old3 := retired + rob + dispatch;
    var all := old3 + m + ifetch;
    OpsOrdered(all);
    forall i, j | 0 <= i < j < |old3| ensures old3[i].id < old3[j].id {
      assert all[i].id < all[j].id;
    }
    forall i, j | 0 <= i < j < |ifetch| ensures ifetch[i].id < ifetch[j].id {
      assert all[|old3| + |m| + i].id < all[|old3| + |m| + j].id;
    }
    forall i, j | 0 <= i < |dib| && 0 <= j < |ifetch| ensures dib[i].id < ifetch[j].id {
      var k := MergeHas(dib, dec, dib[i]);
      assert all[|old3| + k].id < all[|old3| + |m| + j].id;
    }
    forall i, j | 0 <= i < |dec| && 0 <= j < |ifetch| ensures dec[i].id < ifetch[j].id {
      var k := MergeHas(dib, dec, dec[i]);
      assert all[|old3| + k].id < all[|old3| + |m| + j].id;
    }
  }

  lemma OrderOps(retired: seq<Instr>, rob: seq<Instr>, dispatch: seq<Instr>, dib: seq<Instr>, dec: seq<Instr>,
                 ifetch: seq<Instr>)
    ensures Ops(InFlightOrder(retired, rob, dispatch, dib, dec, ifetch))
         == Ops(retired) + Ops(rob) + Ops(dispatch) + Ops(Merge(dib, dec)) + Ops(ifetch)
  {
    var m := Merge(dib, dec);
    OpsConcat(retired, rob);
    OpsConcat(retired + rob, dispatch);
    OpsConcat(retired + rob + dispatch, m);
    OpsConcat(retired + rob + dispatch + m, ifetch);
  }

  lemma SameOpsOrdered(s: seq<Instr>, s': seq<Instr>)
    requires Ops(s) == Ops(s') && InProgramOrder(s)
    ensures InProgramOrder(s')
  {
    forall i, j | 0 <= i < j < |s'| ensures s'[i].id < s'[j].id {
      assert Ops(s)[i].id == s'[i].id && Ops(s)[j].id == s'[j].id;
    }
  }

  /** Moving operations between the stages keeps the invariant as long as their order reads
      the same. */
  lemma PipelineMove(retired: seq<Instr>, rob: seq<Instr>, dispatch: seq<Instr>, dib: seq<Instr>, dec: seq<Instr>,
                     ifetch: seq<Instr>, retired': seq<Instr>, rob': seq<Instr>, dispatch': seq<Instr>,
                     ifetch': seq<Instr>, program: seq<Op>, added: seq<Op>)
    requires PipelineInv(retired, rob, dispatch, dib, dec, ifetch, program)
    requires Ops(retired') + Ops(rob') + Ops(dispatch') == Ops(retired) + Ops(rob) + Ops(dispatch)
    requires Ops(ifetch') == Ops(ifetch) + added && Increasing(program + added)
    ensures PipelineInv(retired', rob', dispatch', dib, dec, ifetch', program + added)
  {
    OrderOps(retired, rob, dispatch, dib, dec, ifetch);
    OrderOps(retired', rob', dispatch', dib, dec, ifetch');
    assert Ops(retired) + Ops(rob) + Ops(dispatch) + Ops(Merge(dib, dec)) + (Ops(ifetch) + added)
        == Ops(retired) + Ops(rob) + Ops(dispatch) + Ops(Merge(dib, dec)) + Ops(ifetch) + added;
  }

  lemma PromoteApart(dib: seq<Instr>, dec: seq<Instr>, w: seq<Instr>, dib': seq<Instr>, dec': seq<Instr>)
    requires Apart(dib, dec) && Apart(Decoded(w, true), Decoded(w, false))
    requires Before(dib, Decoded(w, false)) && Before(dec, Decoded(w, true))
    requires Ops(dib') == Ops(dib + Decoded(w, true)) && Ops(dec') == Ops(dec + Decoded(w, false))
    ensures Apart(dib', dec')
  {
    hide Decoded;
    var x := dib + Decoded(w, true);
    var y := dec + Decoded(w, false);
    assert Apart(x, y);
    forall i, j | 0 <= i < |dib'| && 0 <= j < |dec'| ensures dib'[i].id != dec'[j].id {
      assert Ops(dib')[i].id == x[i].id && Ops(dec')[j].id == y[j].id;
    }
  }

  lemma PromoteMerge(dib: seq<Instr>, dec: seq<Instr>, ifetch: seq<Instr>, n: nat, dib': seq<Instr>, dec': seq<Instr>)
    requires n <= |ifetch| && Before(dib, ifetch) && Before(dec, ifetch)
    requires InProgramOrder(dib) && InProgramOrder(dec) && InProgramOrder(ifetch)
    requires Ops(dib') == Ops(dib + Decoded(ifetch[..n], true)) && Ops(dec') == Ops(dec + Decoded(ifetch[..n], false))
    requires Apart(dib, dec)
    ensures InProgramOrder(dib') && InProgramOrder(dec') && Apart(dib', dec')
    ensures Ops(Merge(dib', dec')) == Ops(Merge(dib, dec)) + Ops(ifetch[..n])
  {
    var w := ifetch[..n];
    PromoteBefore(dib, ifetch, n, true);
    PromoteBefore(dib, ifetch, n, false);
    PromoteBefore(dec, ifetch, n, true);
    PromoteBefore(dec, ifetch, n, false);
    PromoteOrdered(dib, ifetch, n, true);
    PromoteOrdered(dec, ifetch, n, false);
    SameOpsOrdered(dib + Decoded(w, true), dib');
    SameOpsOrdered(dec + Decoded(w, false), dec');
    PartitionApart(w);
    PromoteApart(dib, dec, w, dib', dec');
    MergeSplit(dib, Decoded(w, true), dec, Decoded(w, false));
    MergePartition(w);
    MergeOps(dib', dib + Decoded(w, true), dec', dec + Decoded(w, false));
    OpsConcat(Merge(dib, dec), w);
  }

  /** Promotion: the first `n` fetched instructions split over the two buffers. */
  lemma PromoteStep(retired: seq<Instr>, rob: seq<Instr>, dispatch: seq<Instr>, dib: seq<Instr>, dec: seq<Instr>,
                    ifetch: seq<Instr>, program: seq<Op>, n: nat, dib': seq<Instr>, dec': seq<Instr>)
    requires PipelineInv(retired, rob, dispatch, dib, dec, ifetch, program) && n <= |ifetch|
    requires Ops(dib') == Ops(dib + Decoded(ifetch[..n], true)) && Ops(dec') == Ops(dec + Decoded(ifetch[..n], false))
    ensures PipelineInv(retired, rob, dispatch, dib', dec', ifetch[n..], program)
  {
    StagesOrdered(retired, rob, dispatch, dib, dec, ifetch, program);
    PromoteMerge(dib, dec, ifetch, n, dib', dec');
    OrderOps(retired, rob, dispatch, dib, dec, ifetch);
    OrderOps(retired, rob, dispatch, dib', dec', ifetch[n..]);
    OpsConcat(ifetch[..n], ifetch[n..]);
    assert ifetch == ifetch[..n] + ifetch[n..];
    Associate(Ops(retired) + Ops(rob) + Ops(dispatch), Ops(Merge(dib, dec)), Ops(ifetch[..n]), Ops(ifetch[n..]));
  }

  lemma PromoteBefore(buffer: seq<Instr>, ifetch: seq<Instr>, n: nat, flag: bool)
    requires n <= |ifetch| && Before(buffer, ifetch)
    ensures Before(buffer, Decoded(ifetch[..n], flag))
  {
    forall i, j | 0 <= i < |buffer| && 0 <= j < |Decoded(ifetch[..n], flag)|
      ensures buffer[i].id < Decoded(ifetch[..n], flag)[j].id
    {
      DecodedFrom(ifetch[..n], flag, j);
    }
  }

  lemma PromoteOrdered(buffer: seq<Instr>, ifetch: seq<Instr>, n: nat, flag: bool)
    requires n <= |ifetch| && Before(buffer, Decoded(ifetch[..n], flag)) && InProgramOrder(buffer) && InProgramOrder(ifetch)
    ensures InProgramOrder(buffer + Decoded(ifetch[..n], flag))
  {
    DecodedOrdered(ifetch[..n], flag);
  }

  /** Prefixes of lengths `a` and `b` form a cut: everything taken precedes everything left. */
  ghost predicate IsCut(dib: seq<Instr>, dec: seq<Instr>, a: nat, b: nat) {
    && a <= |dib| && b <= |dec|
    && (forall i, j :: 0 <= i < a && b <= j < |dec| ==> dib[i].id < dec[j].id)
    && (forall i, j :: a <= i < |dib| && 0 <= j < b ==> dec[j].id < dib[i].id)
  }

  /** Taking the next entry of the first buffer keeps the cut when it precedes the next entry
      of the second. */
  lemma CutLeft(dib: seq<Instr>, dec: seq<Instr>, a: nat, b: nat)
    requires IsCut(dib, dec, a, b) && a < |dib| && InProgramOrder(dib) && InProgramOrder(dec)
    requires b == |dec| || dib[a].id < dec[b].id
    ensures IsCut(dib, dec, a + 1, b)
  {
  }

  lemma CutRight(dib: seq<Instr>, dec: seq<Instr>, a: nat, b: nat)
    requires IsCut(dib, dec, a, b) && b < |dec| && InProgramOrder(dib) && InProgramOrder(dec)
    requires a == |dib| || dec[b].id < dib[a].id
    ensures IsCut(dib, dec, a, b + 1)
  {
  }

  /** Decoding a cut sends the next instructions, in program order, to dispatch. */
  lemma DecodeStep(retired: seq<Instr>, rob: seq<Instr>, dispatch: seq<Instr>, dib: seq<Instr>, dec: seq<Instr>,
                   ifetch: seq<Instr>, program: seq<Op>, a: nat, b: nat, dispatch': seq<Instr>)
    requires PipelineInv(retired, rob, dispatch, dib, dec, ifetch, program) && IsCut(dib, dec, a, b)
    requires Ops(dispatch') == Ops(dispatch + Merge(dib[..a], dec[..b]))
    ensures PipelineInv(retired, rob, dispatch', dib[a..], dec[b..], ifetch, program)
  {
    CutMerge(dib, dec, a, b);
    var taken := Merge(dib[..a], dec[..b]);
    var left := Merge(dib[a..], dec[b..]);
    OrderOps(retired, rob, dispatch, dib, dec, ifetch);
    OrderOps(retired, rob, dispatch', dib[a..], dec[b..], ifetch);
    OpsConcat(dispatch, taken);
    OpsConcat(taken, left);
    Associate(Ops(retired) + Ops(rob), Ops(dispatch), Ops(taken), Ops(left));
    Associate(Ops(retired) + Ops(rob) + Ops(dispatch), Ops(taken), Ops(left), Ops(ifetch));
  }

  lemma CutMerge(dib: seq<Instr>, dec: seq<Instr>, a: nat, b: nat)
    requires IsCut(dib, dec, a, b) && InProgramOrder(dib) && InProgramOrder(dec)
    ensures Merge(dib, dec) == Merge(dib[..a], dec[..b]) + Merge(dib[a..], dec[b..])
    ensures InProgramOrder(dib[a..]) && InProgramOrder(dec[b..])
  {
    hide Merge;
    MergeSplit(dib[..a], dib[a..], dec[..b], dec[b..]);
    assert dib[..a] + dib[a..] == dib && dec[..b] + dec[b..] == dec;
  }

  /** Retirement is in program order: what has retired is a prefix of the program. */
  lemma RetiredIsPrefix(retired: seq<Instr>, rob: seq<Instr>, dispatch: seq<Instr>, dib: seq<Instr>, dec: seq<Instr>,
                        ifetch: seq<Instr>, program: seq<Op>)
    requires PipelineInv(retired, rob, dispatch, dib, dec, ifetch, program)
    ensures Ops(retired) <= program && Ops(retired + rob) <= program
    ensures |program| == |retired| + |rob| + |dispatch| + |dib| + |dec| + |ifetch|
  {
    OrderOps(retired, rob, dispatch, dib, dec, ifetch);
    OpsConcat(retired, rob);
  }

  /** Retiring the first `c` entries of the reorder buffer. */
  lemma RetirePipeline(retired: seq<Instr>, rob: seq<Instr>, dispatch: seq<Instr>, dib: seq<Instr>, dec: seq<Instr>,
                       ifetch: seq<Instr>, program: seq<Op>, c: nat)
    requires PipelineInv(retired, rob, dispatch, dib, dec, ifetch, program) && c <= |rob|
    ensures PipelineInv(retired + rob[..c], rob[c..], dispatch, dib, dec, ifetch, program)
  {
    assert retired + rob[..c] + rob[c..] == retired + rob;
  }

  /** Dispatching the oldest decoded instruction as `i`. */
  lemma DispatchPipeline(retired: seq<Instr>, rob: seq<Instr>, dispatch: seq<Instr>, dib: seq<Instr>, dec: seq<Instr>,
                         ifetch: seq<Instr>, program: seq<Op>, i: Instr)
    requires PipelineInv(retired, rob, dispatch, dib, dec, ifetch, program)
    requires dispatch != [] && OpOf(i) == OpOf(dispatch[0])
    ensures PipelineInv(retired, rob + [i], dispatch[1..], dib, dec, ifetch, program)
  {
    OpsConcat(rob, [i]);
    assert Ops(dispatch) == Ops([i]) + Ops(dispatch[1..]);
    assert program + [] == program;
    PipelineMove(retired, rob, dispatch, dib, dec, ifetch, retired, rob + [i], dispatch[1..], ifetch, program, []);
  }

  /** Changing how far reorder-buffer entries have progressed. */
  lemma ProgressPipeline(retired: seq<Instr>, rob: seq<Instr>, dispatch: seq<Instr>, dib: seq<Instr>, dec: seq<Instr>,
                         ifetch: seq<Instr>, program: seq<Op>, rob': seq<Instr>)
    requires PipelineInv(retired, rob, dispatch, dib, dec, ifetch, program)
    requires |rob| == |rob'| && forall k :: 0 <= k < |rob| ==> OpOf(rob[k]) == OpOf(rob'[k])
    ensures PipelineInv(retired, rob', dispatch, dib, dec, ifetch, program)
  {
    assert Ops(rob) == Ops(rob');
    assert program + [] == program;
    PipelineMove(retired, rob, dispatch, dib, dec, ifetch, retired, rob', dispatch, ifetch, program, []);
  }

  /** Fetching the next instruction of the program, or changing the flags of fetched ones. */
  lemma FetchPipeline(retired: seq<Instr>, rob: seq<Instr>, dispatch: seq<Instr>, dib: seq<Instr>, dec: seq<Instr>,
                      ifetch: seq<Instr>, program: seq<Op>, ifetch': seq<Instr>, added: seq<Op>)
    requires PipelineInv(retired, rob, dispatch, dib, dec, ifetch, program)
    requires Ops(ifetch') == Ops(ifetch) + added && Increasing(program + added)
    ensures PipelineInv(retired, rob, dispatch, dib, dec, ifetch', program + added)
  {
    PipelineMove(retired, rob, dispatch, dib, dec, ifetch, retired, rob, dispatch, ifetch', program, added);
  }

  /** An empty pipeline has fetched nothing. */
  lemma InitialPipeline()
    ensures PipelineInv([], [], [], [], [], [], [])
  {
  }
}
