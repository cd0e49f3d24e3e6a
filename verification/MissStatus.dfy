/** Outstanding misses: how requests for the same block merge, and the order in which returned
    misses are filled. */
module MissStatus {
  import opened Prelude

  datatype Access = Load | Rfo | Prefetch | Write | Translation

  /** A miss status holding register; `returned` is the time at which its data can be filled. */
  datatype Mshr = Mshr(address: nat, kind: Access, prefetchFromThis: bool, enqueued: nat,
                       deps: set<nat>, toReturn: set<nat>, returned: Option<nat>)

  // ---- merging ---------------------------------------------------------------------------

  function Merge(predecessor: Mshr, successor: Mshr): Mshr {
    var kept := if successor.kind == Prefetch then predecessor else successor;
    kept.(enqueued := if successor.kind != Prefetch && predecessor.kind == Prefetch then successor.enqueued else predecessor.enqueued,
          deps := predecessor.deps + successor.deps,
          toReturn := predecessor.toReturn + successor.toReturn,
          returned := predecessor.returned)
  }

  /** The register after the first `n` requests, in order of arrival. */
  function Merged(requests: seq<Mshr>, n: nat): Mshr
    requires 1 <= n <= |requests|
  {
    if n == 1 then requests[0] else Merge(Merged(requests, n - 1), requests[n - 1])
  }

  /** The first demand among the first `n` requests, or `n`. */
  function FirstDemand(requests: seq<Mshr>, n: nat): (k: nat)
    requires n <= |requests|
    ensures k <= n && (k < n ==> requests[k].kind != Prefetch) && forall i :: 0 <= i < k ==> requests[i].kind == Prefetch
  {
    if n == 0 then 0
    else
      var k := FirstDemand(requests, n - 1);
      if k < n - 1 || requests[n - 1].kind != Prefetch then k else n
  }

  /** The last demand among the first `n` requests, or `n`. */
  function LastDemand(requests: seq<Mshr>, n: nat): (k: nat)
    requires n <= |requests|
    ensures k <= n && (k < n ==> requests[k].kind != Prefetch)
    ensures forall i :: 0 <= i < n && (k == n || i > k) ==> requests[i].kind == Prefetch
  {
    if n == 0 then 0
    else if requests[n - 1].kind != Prefetch then n - 1
    else
      var k := LastDemand(requests, n - 1);
      if k == n - 1 then n else k
  }

  /** Whatever the order of prefetches and demands: the waiters are exactly those of all
      requests, the register is a prefetch only if all of them were, it counts from the first
      demand (or else from the first request) and otherwise looks like the last demand (or else
      like the first request), and its data is that of the first. */
  lemma {:induction false} MergeFold(requests: seq<Mshr>, n: nat)
    requires 1 <= n <= |requests|
    ensures forall d :: d in Merged(requests, n).deps <==> exists i :: 0 <= i < n && d in requests[i].deps
    ensures forall c :: c in Merged(requests, n).toReturn <==> exists i :: 0 <= i < n && c in requests[i].toReturn
    ensures Merged(requests, n).kind == Prefetch <==> forall i :: 0 <= i < n ==> requests[i].kind == Prefetch
    ensures var k := FirstDemand(requests, n); Merged(requests, n).enqueued == requests[if k == n then 0 else k].enqueued
    ensures var last := LastDemand(requests, n); var m := Merged(requests, n);
      var like := requests[if last == n then 0 else last];
      m.kind == like.kind && m.address == like.address && m.prefetchFromThis == like.prefetchFromThis
    ensures Merged(requests, n).returned == requests[0].returned
  {
    if n > 1 {
      MergeFold(requests, n - 1);
    }
  }

  /** Requests for one block merge into a register for that block. */
  lemma {:induction false} MergeBlock(requests: seq<Mshr>, n: nat, blockSize: nat, b: nat)
    requires 1 <= n <= |requests| && blockSize >= 1 && forall i :: 0 <= i < n ==> BlockOf(requests[i].address, blockSize) == b
    ensures BlockOf(Merged(requests, n).address, blockSize) == b
  {
    if n > 1 {
      MergeBlock(requests, n - 1, blockSize, b);
    }
  }

  // ---- the order of returns --------------------------------------------------------------

  ghost predicate DistinctBlocks(q: seq<Mshr>, blockSize: nat)
    requires blockSize >= 1
  {
    forall i, j :: 0 <= i < j < |q| ==> BlockOf(q[i].address, blockSize) != BlockOf(q[j].address, blockSize)
  }

  /** The first `k` registers have returned, in the order in which they become ready, and the
      others have not. */
  ghost predicate ReturnOrdered(q: seq<Mshr>, k: nat) {
    && k <= |q|
    && (forall i :: 0 <= i < k ==> q[i].returned.Some?)
    && (forall i :: k <= i < |q| ==> q[i].returned.None?)
    && (forall i, j :: 0 <= i < j < k ==> q[i].returned.value <= q[j].returned.value)
  }

  ghost function Blocks(q: seq<Mshr>, blockSize: nat, n: nat): (b: seq<nat>)
    requires blockSize >= 1 && n <= |q|
    ensures |b| == n && forall i :: 0 <= i < n ==> b[i] == BlockOf(q[i].address, blockSize)
  {
    seq(n, i requires 0 <= i < n => BlockOf(q[i].address, blockSize))
  }

  /** No returned register becomes ready after `limit`. */
  ghost predicate ReadyBy(q: seq<Mshr>, limit: nat) {
    forall i :: 0 <= i < |q| && q[i].returned.Some? ==> q[i].returned.value <= limit
  }

  ghost predicate MshrInv(q: seq<Mshr>, blockSize: nat, capacity: nat, k: nat, limit: nat, back: seq<nat>, fills: seq<nat>) {
    && blockSize >= 1 && |q| <= capacity
    && DistinctBlocks(q, blockSize) && ReturnOrdered(q, k) && ReadyBy(q, limit)
    && back == fills + Blocks(q, blockSize, k)
  }

  /** The queue after register `j` returned: it trades places with the first that has not. */
  function SwapIn(q: seq<Mshr>, k: nat, j: nat, time: nat): seq<Mshr>
    requires k < |q| && j < |q|
  {
    q[j := q[k]][k := q[j].(returned := Some(time))]
  }

  lemma ReturnStep(q: seq<Mshr>, blockSize: nat, capacity: nat, k: nat, limit: nat, back: seq<nat>, fills: seq<nat>, j: nat, time: nat)
    requires MshrInv(q, blockSize, capacity, k, limit, back, fills)
    requires j < |q| && q[j].returned.None? && limit <= time
    ensures k <= j
    ensures MshrInv(SwapIn(q, k, j, time), blockSize, capacity, k + 1, time, back + [BlockOf(q[j].address, blockSize)], fills)
  {
    var q' := SwapIn(q, k, j, time);
    hide BlockOf;
    assert Blocks(q', blockSize, k + 1) == Blocks(q, blockSize, k) + [BlockOf(q[j].address, blockSize)];
  }

  /** Filling the first `n` registers, all of them returned. */
  lemma FilledStep(q: seq<Mshr>, blockSize: nat, capacity: nat, k: nat, limit: nat, back: seq<nat>, fills: seq<nat>, n: nat)
    requires MshrInv(q, blockSize, capacity, k, limit, back, fills) && n <= k
    ensures MshrInv(q[n..], blockSize, capacity, k - n, limit, back, fills + Blocks(q, blockSize, n))
  {
    hide BlockOf;
    assert Blocks(q, blockSize, k) == Blocks(q, blockSize, n) + Blocks(q[n..], blockSize, k - n);
  }

  lemma MergedStep(q: seq<Mshr>, blockSize: nat, capacity: nat, k: nat, limit: nat, back: seq<nat>, fills: seq<nat>, i: nat, m: Mshr)
    requires MshrInv(q, blockSize, capacity, k, limit, back, fills) && i < |q|
    requires BlockOf(q[i].address, blockSize) == BlockOf(m.address, blockSize)
    ensures MshrInv(q[i := Merge(q[i], m)], blockSize, capacity, k, limit, back, fills)
  {
    hide BlockOf;
    assert Blocks(q[i := Merge(q[i], m)], blockSize, k) == Blocks(q, blockSize, k);
  }

  lemma AllocatedStep(q: seq<Mshr>, blockSize: nat, capacity: nat, k: nat, limit: nat, back: seq<nat>, fills: seq<nat>, m: Mshr)
    requires MshrInv(q, blockSize, capacity, k, limit, back, fills) && |q| < capacity && m.returned.None?
    requires forall i :: 0 <= i < |q| ==> BlockOf(q[i].address, blockSize) != BlockOf(m.address, blockSize)
    ensures MshrInv(q + [m], blockSize, capacity, k, limit, back, fills)
  {
    hide BlockOf;
    assert Blocks(q + [m], blockSize, k) == Blocks(q, blockSize, k);
  }

  lemma LaterStep(q: seq<Mshr>, blockSize: nat, capacity: nat, k: nat, limit: nat, limit': nat, back: seq<nat>, fills: seq<nat>)
    requires MshrInv(q, blockSize, capacity, k, limit, back, fills) && limit <= limit'
    ensures MshrInv(q, blockSize, capacity, k, limit', back, fills)
  {
  }

  /** Every register that is ready is among those that a fill takes first. */
  lemma ReadyIsPrefix(q: seq<Mshr>, k: nat, now: nat, i: nat, j: nat)
    requires ReturnOrdered(q, k) && i <= j < |q| && q[j].returned.Some? && q[j].returned.value <= now
    ensures q[i].returned.Some? && q[i].returned.value <= now
  {
  }
}
