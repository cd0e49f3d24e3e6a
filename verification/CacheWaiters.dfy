/** Who waits for which block, and that a cache never forgets them: a request that was taken on
    is recorded in a lookup, a register or a pending write until a response carries it. */
module CacheWaiters {
  import opened Prelude
  import opened MissStatus

  /** A request on its way through the tag check. */
  datatype TagLookup = TagLookup(address: nat, kind: Access, prefetchFromThis: bool, skipFill: bool,
                                 event: nat, deps: set<nat>, toReturn: set<nat>)

  /** One response to each of `toReturn`. */
  datatype Reply = Reply(address: nat, deps: set<nat>, toReturn: set<nat>)

  /** `toReturn` must hear that the block has arrived for `deps`. Only the replies from position
      `since` on came after the request. */
  datatype Waiter = Waiter(address: nat, deps: set<nat>, toReturn: set<nat>, since: nat)

  function Register(l: TagLookup, now: nat): Mshr {
    Mshr(l.address, l.kind, l.prefetchFromThis, now, l.deps, l.toReturn, None)
  }

  function ReplyTo(m: Mshr): Reply {
    Reply(m.address, m.deps, m.toReturn)
  }

  ghost predicate Carries(size: nat, address: nat, deps: set<nat>, toReturn: set<nat>, a: Waiter)
    requires size >= 1
  {
    BlockOf(address, size) == BlockOf(a.address, size) && a.deps <= deps && a.toReturn <= toReturn
  }

  ghost predicate InLookup(size: nat, l: TagLookup, a: Waiter)
    requires size >= 1
  {
    Carries(size, l.address, l.deps, l.toReturn, a)
  }

  ghost predicate InRegister(size: nat, m: Mshr, a: Waiter)
    requires size >= 1
  {
    Carries(size, m.address, m.deps, m.toReturn, a)
  }

  ghost predicate InReply(size: nat, r: Reply, a: Waiter)
    requires size >= 1
  {
    Carries(size, r.address, r.deps, r.toReturn, a)
  }

  /** The request waits in a lookup, a register or a pending write, or was answered after it
      had been taken on. */
  ghost predicate Recorded(size: nat, ls: seq<TagLookup>, q: seq<Mshr>, writes: seq<Mshr>, replies: seq<Reply>, a: Waiter)
    requires size >= 1
  {
    || a.toReturn == {}
    || (exists l :: l in ls && InLookup(size, l, a))
    || (exists m :: m in q && InRegister(size, m, a))
    || (exists m :: m in writes && InRegister(size, m, a))
    || (exists i :: a.since <= i < |replies| && InReply(size, replies[i], a))
  }

  ghost predicate NoneLost(size: nat, ls: seq<TagLookup>, q: seq<Mshr>, writes: seq<Mshr>, replies: seq<Reply>, accepted: seq<Waiter>)
    requires size >= 1
  {
    forall k :: 0 <= k < |accepted| ==> accepted[k].since <= |replies| && Recorded(size, ls, q, writes, replies, accepted[k])
  }

  /** Lookup `l` leaves the tag check (others may be reordered) and is recorded elsewhere. */
  lemma LeaveStep(size: nat, ls: seq<TagLookup>, ls': seq<TagLookup>, l: TagLookup, q: seq<Mshr>, q': seq<Mshr>,
                  writes: seq<Mshr>, writes': seq<Mshr>, replies: seq<Reply>, replies': seq<Reply>, accepted: seq<Waiter>)
    requires size >= 1 && NoneLost(size, ls, q, writes, replies, accepted)
    requires forall x :: x in ls ==> x in ls' || x == l
    requires GrowsTo(size, q, q') && writes <= writes' && replies <= replies'
    requires forall a :: InLookup(size, l, a) && a.since <= |replies| ==> Recorded(size, ls', q', writes', replies', a)
    ensures NoneLost(size, ls', q', writes', replies', accepted)
  {
    hide Carries;
    forall k | 0 <= k < |accepted| ensures Recorded(size, ls', q', writes', replies', accepted[k]) {
      LeaveOne(size, ls, ls', l, q, q', writes, writes', replies, replies', accepted[k]);
    }
  }

  lemma LeaveOne(size: nat, ls: seq<TagLookup>, ls': seq<TagLookup>, l: TagLookup, q: seq<Mshr>, q': seq<Mshr>,
                 writes: seq<Mshr>, writes': seq<Mshr>, replies: seq<Reply>, replies': seq<Reply>, a: Waiter)
    requires size >= 1 && Recorded(size, ls, q, writes, replies, a)
    requires forall x :: x in ls ==> x in ls' || x == l
    requires GrowsTo(size, q, q') && writes <= writes' && replies <= replies'
    requires InLookup(size, l, a) ==> Recorded(size, ls', q', writes', replies', a)
    ensures Recorded(size, ls', q', writes', replies', a)
  {
    hide InLookup, InReply, Carries;
    PrefixMembers(writes, writes');
    if i :| a.since <= i < |replies| && InReply(size, replies[i], a) {
      assert replies'[i] == replies[i];
    }
    if m :| m in q && InRegister(size, m, a) {
      GrownHolds(size, q, q', m, a);
    }
  }

  lemma PrefixMembers(s: seq<Mshr>, s': seq<Mshr>)
    requires s <= s'
    ensures forall x :: x in s ==> x in s'
  {
  }

  /** Every register is still there, for the same block and with at least the same waiters. */
  ghost predicate GrowsTo(size: nat, q: seq<Mshr>, q': seq<Mshr>)
    requires size >= 1
  {
    forall m :: m in q ==> exists m' :: m' in q' && Grown(size, m, m')
  }

  ghost predicate Grown(size: nat, m: Mshr, m': Mshr)
    requires size >= 1
  {
    BlockOf(m.address, size) == BlockOf(m'.address, size) && m.deps <= m'.deps && m.toReturn <= m'.toReturn
  }

  lemma GrownHolds(size: nat, q: seq<Mshr>, q': seq<Mshr>, m: Mshr, a: Waiter)
    requires size >= 1 && GrowsTo(size, q, q') && m in q && InRegister(size, m, a)
    ensures exists m' :: m' in q' && InRegister(size, m', a)
  {
    var m' :| m' in q' && Grown(size, m, m');
    assert InRegister(size, m', a);
  }

  lemma GrowSame(size: nat, q: seq<Mshr>, q': seq<Mshr>)
    requires size >= 1 && q <= q'
    ensures GrowsTo(size, q, q')
  {
    PrefixMembers(q, q');
    forall m | m in q ensures exists m' :: m' in q' && Grown(size, m, m') {
      assert Grown(size, m, m);
    }
  }

  lemma GrowAt(size: nat, q: seq<Mshr>, i: nat, m: Mshr)
    requires size >= 1 && i < |q| && Grown(size, q[i], m)
    ensures GrowsTo(size, q, q[i := m])
  {
    var q' := q[i := m];
    forall x | x in q ensures exists m' :: m' in q' && Grown(size, x, m') {
      var j :| 0 <= j < |q| && q[j] == x;
      assert q'[j] in q' && Grown(size, x, q'[j]);
    }
  }

  lemma GrowSwap(size: nat, q: seq<Mshr>, k: nat, j: nat, time: nat)
    requires size >= 1 && k < |q| && j < |q|
    ensures GrowsTo(size, q, SwapIn(q, k, j, time))
  {
    var q' := SwapIn(q, k, j, time);
    forall x | x in q ensures exists m' :: m' in q' && Grown(size, x, m') {
      var i :| 0 <= i < |q| && q[i] == x;
      var i' := if i == j then k else if i == k then j else i;
      assert q'[i'] in q' && Grown(size, x, q'[i']);
    }
  }

  /** A hit answers the lookup. */
  lemma HitStep(size: nat, ls: seq<TagLookup>, ls': seq<TagLookup>, l: TagLookup, q: seq<Mshr>, writes: seq<Mshr>,
                replies: seq<Reply>, accepted: seq<Waiter>)
    requires size >= 1 && NoneLost(size, ls, q, writes, replies, accepted)
    requires forall x :: x in ls ==> x in ls' || x == l
    ensures NoneLost(size, ls', q, writes, replies + [Reply(l.address, l.deps, l.toReturn)], accepted)
  {
    var r := Reply(l.address, l.deps, l.toReturn);
    GrowSame(size, q, q);
    forall a | InLookup(size, l, a) && a.since <= |replies| ensures Recorded(size, ls', q, writes, replies + [r], a) {
      assert InReply(size, (replies + [r])[|replies|], a);
    }
    LeaveStep(size, ls, ls', l, q, q, writes, writes, replies, replies + [r], accepted);
  }

  /** A miss merges into the register of its block. */
  lemma MergeStep(size: nat, ls: seq<TagLookup>, ls': seq<TagLookup>, l: TagLookup, q: seq<Mshr>, i: nat, now: nat, writes: seq<Mshr>,
                  replies: seq<Reply>, accepted: seq<Waiter>)
    requires size >= 1 && NoneLost(size, ls, q, writes, replies, accepted)
    requires forall x :: x in ls ==> x in ls' || x == l
    requires i < |q| && BlockOf(q[i].address, size) == BlockOf(l.address, size)
    ensures NoneLost(size, ls', q[i := Merge(q[i], Register(l, now))], writes, replies, accepted)
  {
    var m := Merge(q[i], Register(l, now));
    var q' := q[i := m];
    GrowAt(size, q, i, m);
    forall a | InLookup(size, l, a) ensures Recorded(size, ls', q', writes, replies, a) {
      assert q'[i] in q' && InRegister(size, m, a);
    }
    LeaveStep(size, ls, ls', l, q, q', writes, writes, replies, replies, accepted);
  }

  /** A miss gets a register of its own, or nobody waits for it. */
  lemma AllocateStep(size: nat, ls: seq<TagLookup>, ls': seq<TagLookup>, l: TagLookup, q: seq<Mshr>, now: nat, writes: seq<Mshr>,
                     replies: seq<Reply>, accepted: seq<Waiter>)
    requires size >= 1 && NoneLost(size, ls, q, writes, replies, accepted)
    requires forall x :: x in ls ==> x in ls' || x == l
    ensures NoneLost(size, ls', q + [Register(l, now)], writes, replies, accepted)
    ensures l.toReturn == {} ==> NoneLost(size, ls', q, writes, replies, accepted)
  {
    var m := Register(l, now);
    GrowSame(size, q, q + [m]);
    GrowSame(size, q, q);
    forall a | InLookup(size, l, a) ensures Recorded(size, ls', q + [m], writes, replies, a) {
      assert m in q + [m] && InRegister(size, m, a);
    }
    LeaveStep(size, ls, ls', l, q, q + [m], writes, writes, replies, replies, accepted);
    if l.toReturn == {} {
      LeaveStep(size, ls, ls', l, q, q, writes, writes, replies, replies, accepted);
    }
  }

  lemma WriteStep(size: nat, ls: seq<TagLookup>, ls': seq<TagLookup>, l: TagLookup, q: seq<Mshr>, m: Mshr, writes: seq<Mshr>,
                  replies: seq<Reply>, accepted: seq<Waiter>)
    requires size >= 1 && NoneLost(size, ls, q, writes, replies, accepted)
    requires forall x :: x in ls ==> x in ls' || x == l
    requires m.address == l.address && m.deps == l.deps && m.toReturn == l.toReturn
    ensures NoneLost(size, ls', q, writes + [m], replies, accepted)
  {
    GrowSame(size, q, q);
    forall a | InLookup(size, l, a) ensures Recorded(size, ls', q, writes + [m], replies, a) {
      assert m in writes + [m] && InRegister(size, m, a);
    }
    LeaveStep(size, ls, ls', l, q, q, writes, writes + [m], replies, replies, accepted);
  }

  /** Lookups are only reordered, or joined by others. */
  lemma ReorderStep(size: nat, ls: seq<TagLookup>, ls': seq<TagLookup>, q: seq<Mshr>, q': seq<Mshr>, writes: seq<Mshr>,
                    replies: seq<Reply>, accepted: seq<Waiter>)
    requires size >= 1 && NoneLost(size, ls, q, writes, replies, accepted)
    requires (forall x :: x in ls ==> x in ls') && GrowsTo(size, q, q')
    ensures NoneLost(size, ls', q', writes, replies, accepted)
  {
    hide Carries;
    forall k | 0 <= k < |accepted| ensures Recorded(size, ls', q', writes, replies, accepted[k]) {
      if m :| m in q && InRegister(size, m, accepted[k]) {
        GrownHolds(size, q, q', m, accepted[k]);
      }
    }
  }

  /** Since `before`, replies to the first `n` registers have been pushed; the registers are
      dropped. */
  lemma FilledStep(size: nat, ls: seq<TagLookup>, q: seq<Mshr>, n: nat, writes: seq<Mshr>, before: seq<Reply>, replies: seq<Reply>,
                   accepted: seq<Waiter>)
    requires size >= 1 && NoneLost(size, ls, q, writes, before, accepted) && n <= |q| && before <= replies
    requires forall i :: 0 <= i < n ==> ReplyTo(q[i]) in replies[|before|..]
    ensures NoneLost(size, ls, q[n..], writes, replies, accepted)
  {
    hide Carries;
    forall k | 0 <= k < |accepted| ensures Recorded(size, ls, q[n..], writes, replies, accepted[k]) {
      if m :| m in q && InRegister(size, m, accepted[k]) {
        var i :| 0 <= i < |q| && q[i] == m;
        if i < n {
          AnsweredSince(size, m, before, replies, accepted[k]);
        } else {
          assert q[n..][i - n] == m;
        }
      } else if i :| accepted[k].since <= i < |before| && InReply(size, before[i], accepted[k]) {
        assert replies[i] == before[i];
      }
    }
  }

  /** The same for pending writes. */
  lemma WrittenStep(size: nat, ls: seq<TagLookup>, q: seq<Mshr>, writes: seq<Mshr>, n: nat, before: seq<Reply>, replies: seq<Reply>,
                    accepted: seq<Waiter>)
    requires size >= 1 && NoneLost(size, ls, q, writes, before, accepted) && n <= |writes| && before <= replies
    requires forall i :: 0 <= i < n ==> ReplyTo(writes[i]) in replies[|before|..]
    ensures NoneLost(size, ls, q, writes[n..], replies, accepted)
  {
    hide Carries;
    forall k | 0 <= k < |accepted| ensures Recorded(size, ls, q, writes[n..], replies, accepted[k]) {
      if m :| m in writes && InRegister(size, m, accepted[k]) {
        var i :| 0 <= i < |writes| && writes[i] == m;
        if i < n {
          AnsweredSince(size, m, before, replies, accepted[k]);
        } else {
          assert writes[n..][i - n] == m;
        }
      } else if i :| accepted[k].since <= i < |before| && InReply(size, before[i], accepted[k]) {
        assert replies[i] == before[i];
      }
    }
  }

  lemma AnsweredSince(size: nat, m: Mshr, before: seq<Reply>, replies: seq<Reply>, a: Waiter)
    requires size >= 1 && before <= replies && ReplyTo(m) in replies[|before|..]
    requires InRegister(size, m, a) && a.since <= |before|
    ensures exists i :: a.since <= i < |replies| && InReply(size, replies[i], a)
  {
    hide Carries;
    var i :| 0 <= i < |replies[|before|..]| && replies[|before|..][i] == ReplyTo(m);
    assert InReply(size, replies[|before| + i], a);
  }

  /** Taking a lookup on records it, whatever was answered before. */
  lemma AcceptStep(size: nat, ls: seq<TagLookup>, l: TagLookup, q: seq<Mshr>, writes: seq<Mshr>, replies: seq<Reply>, accepted: seq<Waiter>)
    requires size >= 1 && NoneLost(size, ls, q, writes, replies, accepted)
    ensures NoneLost(size, ls + [l], q, writes, replies, accepted + [Waiter(l.address, l.deps, l.toReturn, |replies|)])
  {
    var a := Waiter(l.address, l.deps, l.toReturn, |replies|);
    assert InLookup(size, l, a);
    assert l in ls + [l];
    GrowSame(size, q, q);
    ReorderStep(size, ls, ls + [l], q, q, writes, replies, accepted);
    hide Carries;
  }
}
