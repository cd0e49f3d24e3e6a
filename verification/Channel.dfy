/** The channel between two levels: bounded queues of requests, checked for collisions. */
module ChannelUnit {
  import opened Prelude
  import opened ChannelQueues

  function FirstUnchecked(q: Queue): (n: nat)
    ensures n <= |q| && AllChecked(q[..n]) && (n < |q| ==> !q[n].checked)
  {
    if q == [] || !q[0].checked then 0 else 1 + FirstUnchecked(q[1..])
  }

  /** The queue after its unchecked requests were merged. */
  ghost function MergedQueue(q: Queue, grain: nat): Queue
    requires grain >= 1
  {
    var n := FirstUnchecked(q);
    MergeAll(q[..n], q[n..], grain)
  }

  /** The same for a queue of reads, some of which the writes in `wq` answer. */
  ghost function MergedReads(q: Queue, wq: Queue, writeGrain: nat, readGrain: nat): Queue
    requires writeGrain >= 1 && readGrain >= 1
  {
    var n := FirstUnchecked(q);
    MergeAll(q[..n], Unanswered(q[n..], wq, writeGrain), readGrain)
  }

  ghost function Answers(q: Queue, wq: Queue, grain: nat): seq<Response>
    requires grain >= 1
  {
    Forwarded(q[FirstUnchecked(q)..], wq, grain)
  }

  /** One request per block among those already checked, as long as no block was asked for both
      by a translated and by an untranslated address; unchecked requests come last. */
  ghost predicate QueueInv(q: Queue, seen: set<Seen>, grain: nat)
    requires grain >= 1
  {
    && AllSeen(q, seen)
    && (forall i :: FirstUnchecked(q) <= i < |q| ==> !q[i].checked)
    && (SeenAlike(seen, grain) ==> DistinctBlocks(q[..FirstUnchecked(q)], grain))
  }

  class Channel {
    const rqSize: nat
    const pqSize: nat
    const wqSize: nat
    const grain: nat
    const matchOffset: bool
    var rq: Queue
    var pq: Queue
    var wq: Queue
    var returned: seq<Response>

    /** History: the addresses that were ever taken on by each queue. */
    ghost var rqSeen: set<Seen>
    ghost var pqSeen: set<Seen>
    ghost var wqSeen: set<Seen>

    ghost predicate Valid()
      reads this
    {
      && grain >= 1 && |rq| <= rqSize && |pq| <= pqSize && |wq| <= wqSize
      && QueueInv(rq, rqSeen, grain) && QueueInv(pq, pqSeen, grain) && QueueInv(wq, wqSeen, WriteGrain())
    }

    /** Writes are compared by whole address where offsets matter. */
    function WriteGrain(): (n: nat)
      requires grain >= 1
      ensures n >= 1
    {
      if matchOffset then 1 else grain
    }

    /** Writes collide on the same address where offsets matter, and on the same block otherwise. */
    lemma WritesCollide(a: Request, b: Request)
      requires grain >= 1
      ensures matchOffset ==> (Collides(a, b, WriteGrain()) <==> a.address == b.address)
      ensures !matchOffset ==> (Collides(a, b, WriteGrain()) <==> BlockOf(a.address, grain) == BlockOf(b.address, grain))
    {
    }

    constructor (rqSize: nat, pqSize: nat, wqSize: nat, grain: nat, matchOffset: bool)
      requires grain >= 1
      ensures Valid() && rq == [] && pq == [] && wq == [] && returned == []
      ensures rqSeen == {} && pqSeen == {} && wqSeen == {}
    {
      this.rqSize, this.pqSize, this.wqSize, this.grain, this.matchOffset := rqSize, pqSize, wqSize, grain, matchOffset;
      rq, pq, wq, returned := [], [], [], [];
      rqSeen, pqSeen, wqSeen := {}, {}, {};
    }

    method AddRq(packet: Request) returns (ok: bool)
      requires Valid()
      modifies this`rq, this`rqSeen
      ensures Valid() && ok == (|old(rq)| < rqSize)
      ensures rq == if ok then old(rq) + [packet.(checked := false)] else old(rq)
      ensures rqSeen == old(rqSeen) + if ok then {SeenAs(packet)} else {}
    {
      hide QueueInv;
      ok := |rq| < rqSize;
      if ok {
        AddStep(rq, rqSeen, packet.(checked := false), grain);
        rq := rq + [packet.(checked := false)];
        rqSeen := rqSeen + {SeenAs(packet)};
      }
    }

    method AddPq(packet: Request) returns (ok: bool)
      requires Valid()
      modifies this`pq, this`pqSeen
      ensures Valid() && ok == (|old(pq)| < pqSize)
      ensures pq == if ok then old(pq) + [packet.(checked := false)] else old(pq)
      ensures pqSeen == old(pqSeen) + if ok then {SeenAs(packet)} else {}
    {
      hide QueueInv;
      ok := |pq| < pqSize;
      if ok {
        AddStep(pq, pqSeen, packet.(checked := false), grain);
        pq := pq + [packet.(checked := false)];
        pqSeen := pqSeen + {SeenAs(packet)};
      }
    }

    method AddWq(packet: Request) returns (ok: bool)
      requires Valid()
      modifies this`wq, this`wqSeen
      ensures Valid() && ok == (|old(wq)| < wqSize)
      ensures wq == if ok then old(wq) + [packet.(checked := false)] else old(wq)
      ensures wqSeen == old(wqSeen) + if ok then {SeenAs(packet)} else {}
    {
      hide QueueInv;
      ok := |wq| < wqSize;
      if ok {
        AddStep(wq, wqSeen, packet.(checked := false), WriteGrain());
        wq := wq + [packet.(checked := false)];
        wqSeen := wqSeen + {SeenAs(packet)};
      }
    }

    // ---- the level below takes requests from the front ------------------------------------

    method TakeRq(n: nat) returns (batch: Queue)
      requires Valid() && n <= |rq|
      modifies this`rq
      ensures Valid() && batch + rq == old(rq) && |batch| == n
    {
      hide QueueInv;
      TakeStep(rq, rqSeen, n, grain);
      batch := rq[..n];
      rq := rq[n..];
    }

    method TakePq(n: nat) returns (batch: Queue)
      requires Valid() && n <= |pq|
      modifies this`pq
      ensures Valid() && batch + pq == old(pq) && |batch| == n
    {
      hide QueueInv;
      TakeStep(pq, pqSeen, n, grain);
      batch := pq[..n];
      pq := pq[n..];
    }

    method TakeWq(n: nat) returns (batch: Queue)
      requires Valid() && n <= |wq|
      modifies this`wq
      ensures Valid() && batch + wq == old(wq) && |batch| == n
    {
      hide QueueInv;
      TakeStep(wq, wqSeen, n, WriteGrain());
      batch := wq[..n];
      wq := wq[n..];
    }

    // ---- collisions ----------------------------------------------------------------------

    method FindUnchecked(q: Queue) returns (n: nat)
      ensures n == FirstUnchecked(q) <= |q|
    {
      n := 0;
      assert q[0..] == q;
      while n < |q| && q[n].checked
        invariant n <= |q| && FirstUnchecked(q) == n + FirstUnchecked(q[n..])
      {
        assert q[n..][1..] == q[n + 1..];
        n := n + 1;
      }
    }

    method FindMatch(q: Queue, hi: nat, e: Request, g: nat) returns (k: nat)
      requires g >= 1 && hi <= |q|
      ensures k == FirstMatch(q[..hi], e, g) && k <= hi
    {
      hide BlockOf;
      k := 0;
      assert q[0..hi] == q[..hi];
      while k < hi && !Collides(q[k], e, g)
        invariant k <= hi && FirstMatch(q[..hi], e, g) == k + FirstMatch(q[k..hi], e, g)
      {
        assert q[k..hi][1..] == q[k + 1..hi];
        k := k + 1;
      }
    }

    /** Merges the unchecked writes. */
    method CheckWrites()
      requires Valid()
      modifies this`wq
      ensures Valid() && wq == MergedQueue(old(wq), WriteGrain())
    {
      hide BlockOf, FirstUnchecked, FirstMatch, MergeInto, QueueInv;
      MergedInv(wq, wqSeen, WriteGrain());
      var i := FindUnchecked(wq);
      ghost var result := MergedQueue(wq, WriteGrain());
      while i < |wq|
        invariant 0 <= i <= |wq| <= wqSize && MergeAll(wq[..i], wq[i..], WriteGrain()) == result
        decreases |wq| - i
      {
        var e := wq[i];
        var found := FindMatch(wq, i, e, WriteGrain());
        ghost var before := wq;
        if found < i && wq[found].translated == e.translated {
          wq := wq[found := Absorb(wq[found], e)];
          wq := wq[..i] + wq[i + 1..];
          MergedHere(before, i, WriteGrain());
        } else {
          wq := wq[i := e.(checked := true)];
          i := i + 1;
          KeptHere(before, i - 1, WriteGrain());
        }
      }
      assert wq[..|wq|] == wq;
    }

    /** Answers unchecked reads from the write queue and merges the others. */
    method CheckReads(old_q: Queue) returns (q: Queue)
      requires Valid()
      modifies this`returned
      ensures Valid() && q == MergedReads(old_q, wq, WriteGrain(), grain) && |q| <= |old_q|
      ensures returned == old(returned) + Answers(old_q, wq, WriteGrain())
    {
      hide BlockOf, FirstUnchecked, FirstMatch, MergeInto, Unanswered, QueueInv;
      q := old_q;
      var i := FindUnchecked(q);
      ghost var result := MergedReads(q, wq, WriteGrain(), grain);
      ghost var all := returned + Answers(q, wq, WriteGrain());
      while i < |q|
        invariant 0 <= i <= |q| <= |old_q| && MergeAll(q[..i], Unanswered(q[i..], wq, WriteGrain()), grain) == result
        invariant returned + Forwarded(q[i..], wq, WriteGrain()) == all
        decreases |q| - i
      {
        q, i := CheckOneRead(q, i);
      }
      NoneLeft(q, wq, WriteGrain());
    }

    /** Handles request `i` of a queue of reads. */
    method CheckOneRead(q: Queue, i: nat) returns (r: Queue, next: nat)
      requires Valid() && i < |q|
      modifies this`returned
      ensures next <= |r| <= |q| && |r| - next < |q| - i
      ensures MergeAll(r[..next], Unanswered(r[next..], wq, WriteGrain()), grain)
           == MergeAll(q[..i], Unanswered(q[i..], wq, WriteGrain()), grain)
      ensures returned + Forwarded(r[next..], wq, WriteGrain()) == old(returned) + Forwarded(q[i..], wq, WriteGrain())
    {
      hide BlockOf, FirstMatch, MergeInto, Unanswered, QueueInv;
      ReadsHere(q, i, wq, WriteGrain(), grain);
      var e := q[i];
      var write := FindMatch(wq, |wq|, e, WriteGrain());
      assert wq[..|wq|] == wq;
      if write < |wq| && wq[write].translated == e.translated {
        if e.responseRequested {
          returned := returned + [Response(e.address, e.deps)];
        }
        Erased(q, i);
        return q[..i] + q[i + 1..], i;
      }
      var found := FindMatch(q, i, e, grain);
      if found < i && q[found].translated == e.translated {
        r := q[found := Absorb(q[found], e)];
        r := r[..i] + r[i + 1..];
        next := i;
      } else {
        r := q[i := e.(checked := true)];
        next := i + 1;
      }
    }

    /** Checks all three queues. Afterwards a queue holds one request per block, unless a block was
        asked for in it both by a translated and by an untranslated address. */
    method CheckCollision()
      requires Valid()
      modifies this`wq, this`rq, this`pq, this`returned
      ensures Valid() && wq == MergedQueue(old(wq), WriteGrain())
      ensures rq == MergedReads(old(rq), wq, WriteGrain(), grain)
      ensures pq == MergedReads(old(pq), wq, WriteGrain(), grain)
      ensures returned == old(returned) + Answers(old(rq), wq, WriteGrain()) + Answers(old(pq), wq, WriteGrain())
      ensures AllChecked(wq) && AllChecked(rq) && AllChecked(pq)
      ensures SeenAlike(wqSeen, WriteGrain()) ==> DistinctBlocks(wq, WriteGrain())
      ensures SeenAlike(rqSeen, grain) ==> DistinctBlocks(rq, grain)
      ensures SeenAlike(pqSeen, grain) ==> DistinctBlocks(pq, grain)
      ensures forall e :: e in old(wq) ==> Kept(wq, e, WriteGrain())
      ensures forall e :: e in old(rq) ==> Served(rq, wq, returned[|old(returned)|..], e, WriteGrain(), grain)
      ensures forall e :: e in old(pq) ==> Served(pq, wq, returned[|old(returned)|..], e, WriteGrain(), grain)
    {
      hide MergedQueue, MergedReads, Answers, Kept, Served, AllChecked, QueueInv, SeenAlike, DistinctBlocks;
      ghost var wq0, rq0, pq0 := wq, rq, pq;
      CheckWrites();
      QueueMerged(wq0, WriteGrain());
      ReadsInv(rq, wq, rqSeen, WriteGrain(), grain);
      rq := CheckReads(rq);
      ReadsInv(pq, wq, pqSeen, WriteGrain(), grain);
      pq := CheckReads(pq);
      ghost var added := Answers(rq0, wq, WriteGrain()) + Answers(pq0, wq, WriteGrain());
      assert returned == old(returned) + added;
      assert returned[|old(returned)|..] == added;
      ReadsMerged(rq0, wq, added, WriteGrain(), grain);
      ReadsMerged(pq0, wq, added, WriteGrain(), grain);
      CheckedDistinct(wq, wqSeen, WriteGrain());
      CheckedDistinct(rq, rqSeen, grain);
      CheckedDistinct(pq, pqSeen, grain);
    }
  }

  /** A read is still stood for in its queue, or a write answers it, and then whoever wanted a
      response gets one. */
  ghost predicate Served(q: Queue, wq: Queue, answers: seq<Response>, e: Request, writeGrain: nat, readGrain: nat)
    requires writeGrain >= 1 && readGrain >= 1
  {
    || Kept(q, e, readGrain)
    || (Found(wq, e, writeGrain) && (e.responseRequested ==> Response(e.address, e.deps) in answers))
  }

  lemma QueueMerged(q: Queue, grain: nat)
    requires grain >= 1
    ensures AllChecked(MergedQueue(q, grain)) && |MergedQueue(q, grain)| <= |q|
    ensures forall e :: e in q ==> Kept(MergedQueue(q, grain), e, grain)
  {
    var n := FirstUnchecked(q);
    MergeChecks(q[..n], q[n..], grain);
    hide FirstUnchecked;
    forall e | e in q ensures Kept(MergedQueue(q, grain), e, grain) {
      KeptEarly(q, n, q[n..], e, grain);
      MergeKeeps(q[..n], q[n..], e, grain);
    }
  }

  lemma KeptEarly(q: Queue, n: nat, todo: Queue, e: Request, grain: nat)
    requires grain >= 1 && n <= |q| && e in q
    ensures Kept(q[..n], e, grain) || e in q[n..]
  {
    var i :| 0 <= i < |q| && q[i] == e;
    if i < n {
      assert StandsFor(q[..n][i], e, grain);
    } else {
      assert q[n..][i - n] == e;
    }
  }

  lemma ReadsMerged(q: Queue, wq: Queue, answers: seq<Response>, writeGrain: nat, readGrain: nat)
    requires writeGrain >= 1 && readGrain >= 1 && forall r :: r in Answers(q, wq, writeGrain) ==> r in answers
    ensures AllChecked(MergedReads(q, wq, writeGrain, readGrain))
    ensures forall e :: e in q ==> Served(MergedReads(q, wq, writeGrain, readGrain), wq, answers, e, writeGrain, readGrain)
  {
    var n := FirstUnchecked(q);
    var todo := Unanswered(q[n..], wq, writeGrain);
    MergeChecks(q[..n], todo, readGrain);
    hide FirstUnchecked, MergeAll, Unanswered, Forwarded, Found, AllChecked, BlockOf;
    forall e | e in q ensures Served(MergedReads(q, wq, writeGrain, readGrain), wq, answers, e, writeGrain, readGrain) {
      KeptEarly(q, n, q[n..], e, readGrain);
      if e in q[n..] {
        AnsweredOrNot(q[n..], wq, writeGrain, e);
      }
      if Kept(q[..n], e, readGrain) || e in todo {
        MergeKeeps(q[..n], todo, e, readGrain);
      }
    }
  }

  /** A check leaves one request per block in the write queue exactly when the checked requests
      had one each and all requests for the same block were translated alike. */
  lemma WritesDistinct(q: Queue, grain: nat)
    requires grain >= 1
    ensures DistinctBlocks(MergedQueue(q, grain), grain) <==>
      DistinctBlocks(q[..FirstUnchecked(q)], grain) && Agree(q, grain)
  {
    hide FirstUnchecked, MergeAll, DistinctBlocks, Agree;
    var n := FirstUnchecked(q);
    MergedIffAgree(q[..n], q[n..], grain);
    assert q[..n] + q[n..] == q;
  }

  /** The same for a queue of reads, but for those that a write answers. */
  lemma ReadsDistinct(q: Queue, wq: Queue, writeGrain: nat, readGrain: nat)
    requires writeGrain >= 1 && readGrain >= 1
    ensures DistinctBlocks(MergedReads(q, wq, writeGrain, readGrain), readGrain) <==>
      DistinctBlocks(q[..FirstUnchecked(q)], readGrain)
      && Agree(q[..FirstUnchecked(q)] + Unanswered(q[FirstUnchecked(q)..], wq, writeGrain), readGrain)
  {
    hide FirstUnchecked, MergeAll, DistinctBlocks, Agree, Unanswered;
    var n := FirstUnchecked(q);
    MergedIffAgree(q[..n], Unanswered(q[n..], wq, writeGrain), readGrain);
  }

  // ---- every step keeps a queue free of duplicates -----------------------------------------

  lemma {:induction false} AllCheckedPrefix(q: Queue)
    requires AllChecked(q)
    ensures FirstUnchecked(q) == |q| && q[..|q|] == q
  {
    if q != [] {
      AllCheckedPrefix(q[1..]);
    }
  }

  lemma {:induction false} UncheckedLast(q: Queue, e: Request)
    requires !e.checked
    ensures FirstUnchecked(q + [e]) == FirstUnchecked(q)
  {
    if q != [] && q[0].checked {
      assert (q + [e])[1..] == q[1..] + [e];
      UncheckedLast(q[1..], e);
    }
  }

  lemma AddStep(q: Queue, seen: set<Seen>, e: Request, grain: nat)
    requires grain >= 1 && QueueInv(q, seen, grain) && !e.checked
    ensures QueueInv(q + [e], seen + {SeenAs(e)}, grain)
  {
    UncheckedLast(q, e);
    var n := FirstUnchecked(q);
    assert (q + [e])[..n] == q[..n];
    hide FirstUnchecked, DistinctBlocks, SeenAlike;
    if SeenAlike(seen + {SeenAs(e)}, grain) {
      SeenGrows(seen, SeenAs(e), grain);
    }
  }

  lemma {:induction false} UncheckedAfter(q: Queue, n: nat)
    requires n <= |q| && forall i :: FirstUnchecked(q) <= i < |q| ==> !q[i].checked
    ensures FirstUnchecked(q[n..]) == if n <= FirstUnchecked(q) then FirstUnchecked(q) - n else 0
  {
    if n > 0 && q[0].checked {
      assert q[n..] == q[1..][n - 1..];
      UncheckedAfter(q[1..], n - 1);
    }
  }

  lemma TakeStep(q: Queue, seen: set<Seen>, n: nat, grain: nat)
    requires grain >= 1 && QueueInv(q, seen, grain) && n <= |q|
    ensures QueueInv(q[n..], seen, grain)
  {
    hide BlockOf;
    UncheckedAfter(q, n);
    hide FirstUnchecked, SeenAlike;
    if n <= FirstUnchecked(q) {
      assert q[n..][..FirstUnchecked(q[n..])] == q[..FirstUnchecked(q)][n..];
    }
  }

  lemma CheckedDistinct(q: Queue, seen: set<Seen>, grain: nat)
    requires grain >= 1 && QueueInv(q, seen, grain) && AllChecked(q)
    ensures SeenAlike(seen, grain) ==> DistinctBlocks(q, grain)
  {
    hide SeenAlike, DistinctBlocks;
    AllCheckedPrefix(q);
  }

  lemma MergedInv(q: Queue, seen: set<Seen>, grain: nat)
    requires grain >= 1 && QueueInv(q, seen, grain)
    ensures QueueInv(MergedQueue(q, grain), seen, grain)
  {
    QueueMerged(q, grain);
    AllCheckedPrefix(MergedQueue(q, grain));
    WritesDistinct(q, grain);
    var n := FirstUnchecked(q);
    MergeSeen(q[..n], q[n..], seen, grain);
    hide FirstUnchecked, SeenAlike, DistinctBlocks, AllSeen, AllChecked;
    if SeenAlike(seen, grain) {
      SeenAgree(q, seen, grain);
    }
  }

  lemma ReadsInv(q: Queue, wq: Queue, seen: set<Seen>, writeGrain: nat, readGrain: nat)
    requires writeGrain >= 1 && readGrain >= 1 && QueueInv(q, seen, readGrain)
    ensures QueueInv(MergedReads(q, wq, writeGrain, readGrain), seen, readGrain)
  {
    var n := FirstUnchecked(q);
    var todo := Unanswered(q[n..], wq, writeGrain);
    MergeChecks(q[..n], todo, readGrain);
    AllCheckedPrefix(MergedReads(q, wq, writeGrain, readGrain));
    ReadsDistinct(q, wq, writeGrain, readGrain);
    UnansweredSeen(q[n..], wq, seen, writeGrain);
    MergeSeen(q[..n], todo, seen, readGrain);
    assert AllSeen(q[..n] + todo, seen);
    hide FirstUnchecked, SeenAlike, DistinctBlocks, AllSeen, AllChecked;
    if SeenAlike(seen, readGrain) {
      SeenAgree(q[..n] + todo, seen, readGrain);
    }
  }

  // ---- the loops take the recursion's steps ----------------------------------------------

  lemma NoneLeft(q: Queue, wq: Queue, grain: nat)
    requires grain >= 1
    ensures q[..|q|] == q && Unanswered(q[|q|..], wq, grain) == [] && Forwarded(q[|q|..], wq, grain) == []
  {
  }

  lemma Erased(q: Queue, i: nat)
    requires i < |q|
    ensures (q[..i] + q[i + 1..])[..i] == q[..i] && (q[..i] + q[i + 1..])[i..] == q[i..][1..] && q[i..][0] == q[i]
  {
  }

  lemma MergedHere(q: Queue, i: nat, grain: nat)
    requires grain >= 1 && i < |q| && Found(q[..i], q[i], grain)
    ensures var k := FirstMatch(q[..i], q[i], grain);
      var q' := q[k := Absorb(q[k], q[i])];
      var r := q'[..i] + q'[i + 1..];
      r[..i] == MergeInto(q[..i], q[i], grain) && r[i..] == q[i..][1..] && q[i..][0] == q[i]
  {
  }

  lemma KeptHere(q: Queue, i: nat, grain: nat)
    requires grain >= 1 && i < |q| && !Found(q[..i], q[i], grain)
    ensures var r := q[i := q[i].(checked := true)];
      r[..i + 1] == MergeInto(q[..i], q[i], grain) && r[i + 1..] == q[i..][1..] && q[i..][0] == q[i]
  {
  }

  lemma ReadsHere(q: Queue, i: nat, wq: Queue, writeGrain: nat, readGrain: nat)
    requires writeGrain >= 1 && readGrain >= 1 && i < |q|
    ensures Found(q[..i], q[i], readGrain) ==>
      var k := FirstMatch(q[..i], q[i], readGrain);
      var q' := q[k := Absorb(q[k], q[i])];
      var r := q'[..i] + q'[i + 1..];
      r[..i] == MergeInto(q[..i], q[i], readGrain) && r[i..] == q[i..][1..]
    ensures !Found(q[..i], q[i], readGrain) ==>
      var r := q[i := q[i].(checked := true)];
      r[..i + 1] == MergeInto(q[..i], q[i], readGrain) && r[i + 1..] == q[i..][1..]
    ensures q[i..][0] == q[i]
    ensures Found(wq, q[i], writeGrain) ==> Unanswered(q[i..], wq, writeGrain) == Unanswered(q[i..][1..], wq, writeGrain)
    ensures !Found(wq, q[i], writeGrain) ==> Unanswered(q[i..], wq, writeGrain) == [q[i]] + Unanswered(q[i..][1..], wq, writeGrain)
  {
  }
}
