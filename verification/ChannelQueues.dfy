/** Collisions among the requests queued on a channel: what merging and forwarding leave. */
module ChannelQueues {
  import opened Prelude

  datatype Request = Request(address: nat, translated: bool, responseRequested: bool, checked: bool, deps: set<nat>)

  datatype Response = Response(address: nat, deps: set<nat>)

  type Queue = seq<Request>

  predicate Collides(a: Request, b: Request, grain: nat)
    requires grain >= 1
  {
    BlockOf(a.address, grain) == BlockOf(b.address, grain)
  }

  /** The first request of `q` for the block of `e`, or the length of `q`. */
  function FirstMatch(q: Queue, e: Request, grain: nat): (k: nat)
    requires grain >= 1
    ensures k <= |q| && (k < |q| ==> Collides(q[k], e, grain))
    ensures forall j :: 0 <= j < k ==> !Collides(q[j], e, grain)
  {
    if q == [] || Collides(q[0], e, grain) then 0 else 1 + FirstMatch(q[1..], e, grain)
  }

  /** Only the first match is tried, and only if it is translated alike. */
  predicate Found(q: Queue, e: Request, grain: nat)
    requires grain >= 1
  {
    var k := FirstMatch(q, e, grain);
    k < |q| && q[k].translated == e.translated
  }

  function Absorb(into: Request, from: Request): Request {
    into.(responseRequested := into.responseRequested || from.responseRequested, deps := into.deps + from.deps)
  }

  function MergeInto(done: Queue, e: Request, grain: nat): (r: Queue)
    requires grain >= 1
    ensures |done| <= |r| <= |done| + 1
  {
    var k := FirstMatch(done, e, grain);
    if Found(done, e, grain) then done[k := Absorb(done[k], e)] else done + [e.(checked := true)]
  }

  /** Each request of `todo` in turn joins the queue or merges into it. */
  function MergeAll(done: Queue, todo: Queue, grain: nat): Queue
    requires grain >= 1
    decreases |todo|
  {
    if todo == [] then done else MergeAll(MergeInto(done, todo[0], grain), todo[1..], grain)
  }

  /** The reads that no queued write answers. */
  function Unanswered(todo: Queue, wq: Queue, grain: nat): Queue
    requires grain >= 1
  {
    if todo == [] then []
    else (if Found(wq, todo[0], grain) then [] else [todo[0]]) + Unanswered(todo[1..], wq, grain)
  }

  /** The responses to the reads that a queued write answers. */
  function Forwarded(todo: Queue, wq: Queue, grain: nat): seq<Response>
    requires grain >= 1
  {
    if todo == [] then []
    else
      (if Found(wq, todo[0], grain) && todo[0].responseRequested then [Response(todo[0].address, todo[0].deps)] else [])
      + Forwarded(todo[1..], wq, grain)
  }

  // ---- nothing is lost -------------------------------------------------------------------

  /** Request `f` stands for `e`: same block, translated alike, and whoever waits for `e` waits
      for `f`. */
  ghost predicate StandsFor(f: Request, e: Request, grain: nat)
    requires grain >= 1
  {
    Collides(f, e, grain) && f.translated == e.translated && e.deps <= f.deps && (e.responseRequested ==> f.responseRequested)
  }

  ghost predicate Kept(q: Queue, e: Request, grain: nat)
    requires grain >= 1
  {
    exists i :: 0 <= i < |q| && StandsFor(q[i], e, grain)
  }

  lemma KeptInMerge(done: Queue, e: Request, x: Request, grain: nat)
    requires grain >= 1
    ensures Kept(done, x, grain) ==> Kept(MergeInto(done, e, grain), x, grain)
    ensures Kept(MergeInto(done, e, grain), e, grain)
  {
    var r := MergeInto(done, e, grain);
    var k := FirstMatch(done, e, grain);
    hide BlockOf;
    if i :| 0 <= i < |done| && StandsFor(done[i], x, grain) {
      assert StandsFor(r[i], x, grain);
    }
    if Found(done, e, grain) {
      assert StandsFor(r[k], e, grain);
    } else {
      assert StandsFor(r[|done|], e, grain);
    }
  }

  /** Every request merged is still stood for. */
  lemma {:induction false} MergeKeeps(done: Queue, todo: Queue, x: Request, grain: nat)
    requires grain >= 1 && (Kept(done, x, grain) || x in todo)
    ensures Kept(MergeAll(done, todo, grain), x, grain)
    decreases |todo|
  {
    if todo != [] {
      KeptInMerge(done, todo[0], x, grain);
      assert x in todo ==> x == todo[0] || x in todo[1..];
      MergeKeeps(MergeInto(done, todo[0], grain), todo[1..], x, grain);
    }
  }

  /** A read that is not answered by a write is still there to be merged; one that is answered
      and wanted a response gets it. */
  lemma {:induction false} AnsweredOrNot(todo: Queue, wq: Queue, grain: nat, x: Request)
    requires grain >= 1 && x in todo
    ensures
      || x in Unanswered(todo, wq, grain)
      || (Found(wq, x, grain) && (x.responseRequested ==> Response(x.address, x.deps) in Forwarded(todo, wq, grain)))
  {
    if x != todo[0] {
      AnsweredOrNot(todo[1..], wq, grain, x);
    }
  }

  // ---- one request per block -------------------------------------------------------------

  ghost predicate DistinctBlocks(q: Queue, grain: nat)
    requires grain >= 1
  {
    forall i, j :: 0 <= i < j < |q| ==> !Collides(q[i], q[j], grain)
  }

  /** Requests for the same block are translated alike. */
  ghost predicate Agree(q: Queue, grain: nat)
    requires grain >= 1
  {
    forall i, j :: 0 <= i < j < |q| && Collides(q[i], q[j], grain) ==> q[i].translated == q[j].translated
  }

  /** A duplicate is never removed again. */
  lemma {:induction false} DuplicateStays(done: Queue, todo: Queue, grain: nat, i: nat, j: nat)
    requires grain >= 1 && i < j < |done| && Collides(done[i], done[j], grain)
    ensures !DistinctBlocks(MergeAll(done, todo, grain), grain)
    decreases |todo|
  {
    hide BlockOf;
    if todo != [] {
      var r := MergeInto(done, todo[0], grain);
      assert Collides(r[i], r[j], grain);
      DuplicateStays(r, todo[1..], grain, i, j);
    }
  }

  lemma DistinctStep(done: Queue, e: Request, grain: nat)
    requires grain >= 1 && DistinctBlocks(done, grain)
    requires Found(done, e, grain) || FirstMatch(done, e, grain) == |done|
    ensures DistinctBlocks(MergeInto(done, e, grain), grain)
  {
    hide BlockOf;
    var r := MergeInto(done, e, grain);
    forall i, j | 0 <= i < j < |r| ensures !Collides(r[i], r[j], grain) {
      if j < |done| {
        assert !Collides(done[i], done[j], grain);
      }
    }
  }

  lemma AgreeStep(done: Queue, todo: Queue, grain: nat)
    requires grain >= 1 && todo != []
    requires Found(done, todo[0], grain) || FirstMatch(done, todo[0], grain) == |done|
    ensures Agree(done + todo, grain) <==> Agree(MergeInto(done, todo[0], grain) + todo[1..], grain)
  {
    hide BlockOf;
    var e, rest := todo[0], todo[1..];
    var k, r := FirstMatch(done, e, grain), MergeInto(done, e, grain);
    var a, b := done + todo, r + rest;
    var n := |done|;
    if Found(done, e, grain) {
      assert forall i :: 0 <= i < n ==> b[i].address == a[i].address && b[i].translated == a[i].translated;
      assert forall i :: n <= i < |b| ==> b[i] == a[i + 1];
      hide FirstMatch, Agree;
      MergedAgree(a, b, grain, k, n);
    } else {
      assert |a| == |b| && forall i :: 0 <= i < |a| ==> b[i].address == a[i].address && b[i].translated == a[i].translated;
      SameAgree(a, b, grain);
      hide Agree;
    }
  }

  lemma SameAgree(a: Queue, b: Queue, grain: nat)
    requires grain >= 1 && |a| == |b|
    requires forall i :: 0 <= i < |a| ==> b[i].address == a[i].address && b[i].translated == a[i].translated
    ensures Agree(a, grain) <==> Agree(b, grain)
  {
    hide BlockOf;
    forall i, j | 0 <= i < j < |a| ensures Collides(a[i], a[j], grain) == Collides(b[i], b[j], grain) {
    }
  }

  /** Dropping a request that agrees with an earlier one for its block. */
  lemma MergedAgree(a: Queue, b: Queue, grain: nat, k: nat, n: nat)
    requires grain >= 1 && k < n < |a| && |b| == |a| - 1
    requires Collides(a[k], a[n], grain) && a[k].translated == a[n].translated
    requires forall i :: 0 <= i < n ==> b[i].address == a[i].address && b[i].translated == a[i].translated
    requires forall i :: n <= i < |b| ==> b[i] == a[i + 1]
    ensures Agree(a, grain) <==> Agree(b, grain)
  {
    hide BlockOf;
    if Agree(a, grain) {
      forall i, j | 0 <= i < j < |b| && Collides(b[i], b[j], grain) ensures b[i].translated == b[j].translated {
        var i', j' := if i < n then i else i + 1, if j < n then j else j + 1;
        assert Collides(a[i'], a[j'], grain);
      }
    }
    if Agree(b, grain) {
      forall i, j | 0 <= i < j < |a| && Collides(a[i], a[j], grain) ensures a[i].translated == a[j].translated {
        PairAgrees(a, b, grain, k, n, i, j);
      }
    }
  }

  lemma PairAgrees(a: Queue, b: Queue, grain: nat, k: nat, n: nat, i: nat, j: nat)
    requires grain >= 1 && k < n < |a| && |b| == |a| - 1 && Agree(b, grain)
    requires Collides(a[k], a[n], grain) && a[k].translated == a[n].translated
    requires forall m :: 0 <= m < n ==> b[m].address == a[m].address && b[m].translated == a[m].translated
    requires forall m :: n <= m < |b| ==> b[m] == a[m + 1]
    requires i < j < |a| && Collides(a[i], a[j], grain)
    ensures a[i].translated == a[j].translated
  {
    hide BlockOf;
    var i', j' := if i == n then k else if i < n then i else i - 1, if j == n then k else if j < n then j else j - 1;
    assert Collides(b[i'], b[j'], grain) && Collides(b[j'], b[i'], grain);
  }

  /** From distinct blocks on, merging leaves one request per block exactly when requests for the
      same block are translated alike. */
  lemma {:induction false} DistinctIffAgree(done: Queue, todo: Queue, grain: nat)
    requires grain >= 1 && DistinctBlocks(done, grain)
    ensures DistinctBlocks(MergeAll(done, todo, grain), grain) <==> Agree(done + todo, grain)
    decreases |todo|
  {
    hide BlockOf;
    if todo == [] {
      assert done + todo == done;
    } else {
      var e := todo[0];
      var k := FirstMatch(done, e, grain);
      if Found(done, e, grain) || k == |done| {
        DistinctStep(done, e, grain);
        AgreeStep(done, todo, grain);
        DistinctIffAgree(MergeInto(done, e, grain), todo[1..], grain);
      } else {
        var r := MergeInto(done, e, grain);
        assert Collides(r[k], r[|done|], grain);
        DuplicateStays(r, todo[1..], grain, k, |done|);
        assert (done + todo)[k] == done[k] && (done + todo)[|done|] == e;
      }
    }
  }

  /** The same for any start: merging removes no duplicate that was there before. */
  lemma MergedIffAgree(done: Queue, todo: Queue, grain: nat)
    requires grain >= 1
    ensures DistinctBlocks(MergeAll(done, todo, grain), grain) <==> DistinctBlocks(done, grain) && Agree(done + todo, grain)
  {
    hide BlockOf;
    if DistinctBlocks(done, grain) {
      DistinctIffAgree(done, todo, grain);
    } else {
      var i, j :| 0 <= i < j < |done| && Collides(done[i], done[j], grain);
      DuplicateStays(done, todo, grain, i, j);
    }
  }

  /** Requests translated differently: the third one finds the first, which is not alike, and
      duplicates the second. */
  lemma MixedDuplicates()
    ensures var a, b := Request(64, false, true, false, {1}), Request(64, true, true, false, {2});
      MergeAll([], [a, b, b], 64) == [a.(checked := true), b.(checked := true), b.(checked := true)]
  {
    var a, b := Request(64, false, true, false, {1}), Request(64, true, true, false, {2});
    var a', b' := a.(checked := true), b.(checked := true);
    assert [a, b, b][1..] == [b, b] && [b, b][1..] == [b] && [b][1..] == [];
    assert MergeInto([], a, 64) == [a'];
    assert FirstMatch([a'], b, 64) == 0 && MergeInto([a'], b, 64) == [a', b'];
    assert FirstMatch([a', b'], b, 64) == 0 && MergeInto([a', b'], b, 64) == [a', b', b'];
    assert MergeAll([a', b', b'], [], 64) == [a', b', b'];
    assert MergeAll([a', b'], [b], 64) == [a', b', b'];
    assert MergeAll([a'], [b, b], 64) == [a', b', b'];
  }

  ghost predicate AllChecked(q: Queue) {
    forall i :: 0 <= i < |q| ==> q[i].checked
  }

  lemma {:induction false} MergeChecks(done: Queue, todo: Queue, grain: nat)
    requires grain >= 1 && AllChecked(done)
    ensures AllChecked(MergeAll(done, todo, grain)) && |MergeAll(done, todo, grain)| <= |done| + |todo|
    decreases |todo|
  {
    if todo != [] {
      MergeChecks(MergeInto(done, todo[0], grain), todo[1..], grain);
    }
  }

  // ---- what was ever queued ---------------------------------------------------------------

  datatype Seen = Seen(address: nat, translated: bool)

  function SeenAs(e: Request): Seen {
    Seen(e.address, e.translated)
  }

  ghost predicate AllSeen(q: Queue, seen: set<Seen>) {
    forall i :: 0 <= i < |q| ==> SeenAs(q[i]) in seen
  }

  /** No block was asked for both by a translated and by an untranslated address. */
  ghost predicate SeenAlike(seen: set<Seen>, grain: nat)
    requires grain >= 1
  {
    forall a, b :: a in seen && b in seen && BlockOf(a.address, grain) == BlockOf(b.address, grain) ==> a.translated == b.translated
  }

  lemma SeenAgree(q: Queue, seen: set<Seen>, grain: nat)
    requires grain >= 1 && AllSeen(q, seen) && SeenAlike(seen, grain)
    ensures Agree(q, grain)
  {
    hide BlockOf;
    forall i, j | 0 <= i < j < |q| && Collides(q[i], q[j], grain) ensures q[i].translated == q[j].translated {
      assert SeenAs(q[i]) in seen && SeenAs(q[j]) in seen;
    }
  }

  lemma SeenGrows(seen: set<Seen>, e: Seen, grain: nat)
    requires grain >= 1 && SeenAlike(seen + {e}, grain)
    ensures SeenAlike(seen, grain)
  {
    hide BlockOf;
  }

  lemma {:induction false} MergeSeen(done: Queue, todo: Queue, seen: set<Seen>, grain: nat)
    requires grain >= 1 && AllSeen(done, seen) && AllSeen(todo, seen)
    ensures AllSeen(MergeAll(done, todo, grain), seen)
    decreases |todo|
  {
    if todo != [] {
      MergeSeen(MergeInto(done, todo[0], grain), todo[1..], seen, grain);
    }
  }

  lemma {:induction false} UnansweredSeen(todo: Queue, wq: Queue, seen: set<Seen>, grain: nat)
    requires grain >= 1 && AllSeen(todo, seen)
    ensures AllSeen(Unanswered(todo, wq, grain), seen)
  {
    if todo != [] {
      UnansweredSeen(todo[1..], wq, seen, grain);
    }
  }
}
