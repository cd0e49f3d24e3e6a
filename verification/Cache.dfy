/** A cache, stepped once per cycle: returns are recorded, misses are filled, tags are checked. */
module CacheUnit {
  import opened Prelude
  import opened Grids
  import opened MissStatus
  import opened CacheSets
  import opened CacheSteps
  import W = CacheWaiters

  class Cache {
    const g: Shape
    const cfg: Config
    const block: array2<Way>
    var now: nat
    var warmup: bool
    var mshr: seq<Mshr>
    var writes: seq<Mshr>
    var lookups: seq<W.TagLookup>
    var replies: seq<W.Reply>
    var written: seq<nat>
    var forwarded: seq<Forward>

    /** History: how many registers have returned, the blocks in the order in which they
        returned and were filled, and every request taken on. */
    ghost var returnedCount: nat
    ghost var back: seq<nat>
    ghost var fills: seq<nat>
    ghost var accepted: seq<W.Waiter>

    function Latency(): nat
      reads this
    {
      if warmup then 0 else cfg.fillLatency
    }

    ghost predicate SetsValid()
      reads this, block
    {
      g.ways >= 1 && SetsInv(g, Rows(block), mshr, writes, cfg.matchOffset)
    }

    ghost predicate QueueValid()
      reads this
    {
      && MshrInv(mshr, g.blockSize, cfg.capacity, returnedCount, now + Latency(), back, fills)
      && Asked(g.blockSize, mshr, forwarded)
    }

    ghost predicate WaitersValid()
      reads this
    {
      g.blockSize >= 1 && W.NoneLost(g.blockSize, lookups, mshr, writes, replies, accepted) && LocalSilent(lookups)
    }

    ghost predicate Valid()
      reads this, block
    {
      SetsValid() && QueueValid() && WaitersValid()
    }

    constructor (g: Shape, cfg: Config, warmup: bool)
      requires g.Valid() && g.ways >= 1
      ensures Valid() && fresh(block) && this.g == g && this.cfg == cfg
      ensures mshr == [] && lookups == [] && replies == [] && accepted == []
      ensures forall s, w :: 0 <= s < g.sets && 0 <= w < g.ways ==> Rows(block)[s][w] == Way(false, false, false, 0)
    {
      this.g, this.cfg, this.warmup := g, cfg, warmup;
      block := new Way[g.sets, g.ways]((s, w) => Way(false, false, false, 0));
      mshr, writes, lookups, replies, written, forwarded := [], [], [], [], [], [];
      now, returnedCount, back, fills, accepted := 0, 0, [], [], [];
    }

    /** In every reachable state of a cache that matches whole addresses, a block is held by at
        most one way, which is in the block's set, and not while a register waits for it. */
    lemma BlockHeldOnce(s: nat, w: nat, s': nat, w': nat, i: nat)
      requires Valid() && cfg.matchOffset && s < g.sets && s' < g.sets && w < g.ways && w' < g.ways
      requires block.Length0 == g.sets && block.Length1 == g.ways && block[s, w].valid && block[s', w'].valid
      ensures g.Block(block[s, w].address) == g.Block(block[s', w'].address) ==> s == s' && w == w'
      ensures g.SetOf(block[s, w].address) == s
      ensures i < |mshr| ==> g.Block(mshr[i].address) != g.Block(block[s, w].address)
    {
      hide BlockOf, W.NoneLost, MshrInv, HeldOnce, NotYetHeld;
      OncePerBlock(g, Rows(block), mshr, s, w, s', w', i);
      assert Rows(block)[s][w] == block[s, w] && Rows(block)[s'][w'] == block[s', w'];
    }

    /** In every reachable state, blocks have been filled in the order in which they returned,
        and the registers are within capacity and wait for different blocks. */
    lemma FillsFollowReturns()
      requires Valid()
      ensures fills <= back && |mshr| <= cfg.capacity && DistinctBlocks(mshr, g.blockSize)
    {
      hide BlockOf, W.NoneLost, SetsInv, DistinctBlocks;
    }

    /** In every reachable state the lower level has been asked, with a response, for every block
        that a register waits for, and was never sent a write for a miss. */
    lemma MissesWereAsked(i: nat)
      requires Valid() && i < |mshr|
      ensures exists f ::
        f in forwarded && f.responseRequested && f.kind != Write && BlockOf(f.address, g.blockSize) == BlockOf(mshr[i].address, g.blockSize)
    {
      hide BlockOf, W.NoneLost, SetsInv, MshrInv;
      assert AskedFor(g.blockSize, mshr[i], forwarded);
    }

    /** The clock moves on; warmup may end. */
    method Tick(warmup': bool)
      requires Valid() && (warmup' ==> warmup)
      modifies this`now, this`warmup
      ensures Valid() && now == old(now) + 1 && warmup == warmup'
    {
      hide Asked, SetsInv, W.NoneLost, MshrInv;
      ghost var before := now + Latency();
      now := now + 1;
      warmup := warmup';
      LaterStep(mshr, g.blockSize, cfg.capacity, returnedCount, before, now + Latency(), back, fills);
    }

    // ---- returns -------------------------------------------------------------------------

    method FindRegister(address: nat) returns (i: nat)
      requires g.blockSize >= 1
      ensures i <= |mshr| && (i < |mshr| ==> BlockOf(mshr[i].address, g.blockSize) == BlockOf(address, g.blockSize))
      ensures forall j :: 0 <= j < i ==> BlockOf(mshr[j].address, g.blockSize) != BlockOf(address, g.blockSize)
    {
      hide BlockOf;
      i := 0;
      while i < |mshr| && BlockOf(mshr[i].address, g.blockSize) != BlockOf(address, g.blockSize)
        invariant i <= |mshr|
        invariant forall j :: 0 <= j < i ==> BlockOf(mshr[j].address, g.blockSize) != BlockOf(address, g.blockSize)
      {
        i := i + 1;
      }
    }

    method FirstUnreturned() returns (i: nat)
      ensures i <= |mshr| && (i < |mshr| ==> mshr[i].returned.None?)
      ensures forall j :: 0 <= j < i ==> mshr[j].returned.Some?
    {
      i := 0;
      while i < |mshr| && mshr[i].returned.Some?
        invariant i <= |mshr| && forall j :: 0 <= j < i ==> mshr[j].returned.Some?
      {
        i := i + 1;
      }
    }

    /** Records a response: its register becomes ready after the fill latency and moves in front
        of all that have not returned. */
    method FinishPacket(address: nat)
      requires Valid() && Awaits(g.blockSize, mshr, address)
      modifies this`mshr, this`returnedCount, this`back
      ensures Valid() && back == old(back) + [BlockOf(address, g.blockSize)] && returnedCount == old(returnedCount) + 1
      ensures Returned(g.blockSize, old(mshr), mshr, address, old(returnedCount), now + Latency())
    {
      hide SetsInv, W.NoneLost, LocalSilent, BlockOf, MshrInv;
      var entry := FindRegister(address);
      var first := FirstUnreturned();
      UniqueRegister(mshr, g.blockSize, cfg.capacity, returnedCount, now + Latency(), back, fills, address, entry, first);
      hide Awaits;
      var time := now + Latency();
      ReturnStep(mshr, g.blockSize, cfg.capacity, returnedCount, time, back, fills, entry, time);
      SwapSets(g, Rows(block), mshr, writes, cfg.matchOffset, first, entry, time);
      AskedSwap(g.blockSize, mshr, first, entry, time, forwarded);
      W.GrowSwap(g.blockSize, mshr, first, entry, time);
      W.ReorderStep(g.blockSize, lookups, lookups, mshr, SwapIn(mshr, first, entry, time), writes, replies, accepted);
      var finished := mshr[entry].(returned := Some(time));
      mshr := mshr[entry := mshr[first]][first := finished];
      back := back + [BlockOf(address, g.blockSize)];
      returnedCount := returnedCount + 1;
    }

    /** Records all responses of this cycle: one for each of some outstanding misses. */
    method FinishReturns(responses: seq<nat>) returns (ghost qs: seq<seq<Mshr>>)
      requires Valid() && Answers(g.blockSize, mshr, responses, 0)
      modifies this`mshr, this`returnedCount, this`back
      ensures Valid() && |back| == |old(back)| + |responses| && |mshr| == |old(mshr)|
      ensures forall i :: 0 <= i < |responses| ==> back[|old(back)| + i] == BlockOf(responses[i], g.blockSize)
      ensures old(back) <= back
      ensures g.blockSize >= 1 && ReturnsDone(g.blockSize, qs, responses, old(returnedCount), now + Latency())
      ensures |qs| == |responses| + 1 && qs[0] == old(mshr) && mshr == qs[|responses|]
    {
      hide SetsInv, W.NoneLost, LocalSilent, BlockOf, MshrInv, Answers, Awaits, Returned, Outstanding;
      qs := [mshr];
      for i := 0 to |responses|
        invariant Valid() && Answers(g.blockSize, mshr, responses, i) && |mshr| == |old(mshr)|
        invariant |back| == |old(back)| + i && old(back) <= back && returnedCount == old(returnedCount) + i
        invariant forall j :: 0 <= j < i ==> back[|old(back)| + j] == BlockOf(responses[j], g.blockSize)
        invariant |qs| == i + 1 && qs[0] == old(mshr) && qs[i] == mshr
        invariant forall j :: 0 <= j < i ==>
          Returned(g.blockSize, qs[j], qs[j + 1], responses[j], old(returnedCount) + j, now + Latency())
      {
        ghost var q, first := mshr, returnedCount;
        NextAwaited(g.blockSize, mshr, responses, i);
        FinishPacket(responses[i]);
        StillAnswers(g.blockSize, q, mshr, responses, i, first, now + Latency());
        qs := qs + [mshr];
      }
    }

    // ---- fills ---------------------------------------------------------------------------

    /** The way to fill: the first invalid one, else any that the replacement policy names; it
        may name none, except for a write. */
    method FindVictim(m: Mshr) returns (way: nat)
      requires Shaped(g, Rows(block)) && g.ways >= 1
      ensures IsVictim(g, Rows(block)[g.SetOf(m.address)], way, m.kind)
    {
      hide BlockOf;
      var s := g.SetOf(m.address);
      way := 0;
      while way < g.ways && block[s, way].valid
        invariant way <= g.ways && forall v :: 0 <= v < way ==> Rows(block)[s][v].valid
      {
        way := way + 1;
      }
      if way == g.ways {
        way :| 0 <= way <= g.ways && (m.kind == Write ==> way < g.ways);
      }
    }

    /** The lower level takes a write-back, or refuses it. */
    method SendWrite(address: nat) returns (taken: bool)
      modifies this`written
      ensures written == if taken then old(written) + [address] else old(written)
    {
      taken := *;
      if taken {
        written := written + [address];
      }
    }

    /** The lower level takes a request, or refuses it. */
    method SendRequest(f: Forward) returns (taken: bool)
      modifies this`forwarded
      ensures forwarded == if taken then old(forwarded) + [f] else old(forwarded)
    {
      taken := *;
      if taken {
        forwarded := forwarded + [f];
      }
    }

    /** Fills the block of `m` and answers its waiters; fails, changing nothing, when a dirty
        victim cannot be written back. */
    method HandleFill(m: Mshr) returns (ok: bool, ghost way: nat)
      requires Shaped(g, Rows(block)) && g.ways >= 1
      modifies block, this`written, this`replies
      ensures Shaped(g, Rows(block)) && IsVictim(g, old(Rows(block))[g.SetOf(m.address)], way, m.kind)
      ensures !ok ==> Rows(block) == old(Rows(block)) && unchanged(`written) && unchanged(`replies)
      ensures !ok ==> Blocked(g, Rows(block), m)
      ensures ok ==> Rows(block) == Filled(g, old(Rows(block)), way, m) && replies == old(replies) + [W.ReplyTo(m)]
      ensures ok ==> written == old(written) + Listed(Evicts(g, old(Rows(block)), g.SetOf(m.address), way))
    {
      hide BlockOf;
      var w := FindVictim(m);
      way := w;
      var s := g.SetOf(m.address);
      ghost var before := Rows(block);
      if w < g.ways && block[s, w].valid && block[s, w].dirty {
        var taken := SendWrite(block[s, w].address);
        if !taken {
          assert Evicts(g, Rows(block), s, way) != None;
          return false, way;
        }
      }
      if w < g.ways {
        block[s, w] := FillBlock(m);
        OnePlace(before, Rows(block), s, w, FillBlock(m));
      }
      replies := replies + [W.ReplyTo(m)];
      ok := true;
    }

    /** Fills returned misses in the order of their return, then pending writes, up to the fill
        bandwidth; stops at the first that cannot be filled. `mid` are the sets between the two. */
    method PerformFills() returns (misses: nat, stores: nat, ghost mid: Ways, ghost missWays: seq<nat>, ghost storeWays: seq<nat>)
      requires Valid()
      modifies block, this`written, this`replies, this`mshr, this`writes, this`returnedCount, this`fills
      ensures Valid() && misses == |missWays| <= cfg.maxFill && stores == |storeWays|
      ensures FilledUp(g, old(Rows(block)), old(mshr), missWays, cfg.maxFill, now, mid)
      ensures FilledUp(g, mid, old(writes), storeWays, cfg.maxFill - misses, now, Rows(block))
      ensures mshr == old(mshr)[misses..] && writes == old(writes)[stores..]
      ensures fills == old(fills) + Blocks(old(mshr), g.blockSize, misses)
      ensures replies == old(replies) + RepliesTo(old(mshr), misses) + RepliesTo(old(writes), stores)
      ensures written == old(written) + WrittenBack(g, old(Rows(block)), old(mshr), missWays, misses)
        + WrittenBack(g, mid, old(writes), storeWays, stores)
    {
      hide Valid, FilledUp, WrittenBack, RepliesTo, Blocks;
      misses, missWays := FillMisses();
      mid := Rows(block);
      stores, storeWays := FillWrites(cfg.maxFill - misses);
    }

    method FillMisses() returns (n: nat, ghost ways: seq<nat>)
      requires Valid()
      modifies block, this`written, this`replies, this`mshr, this`returnedCount, this`fills
      ensures Valid() && n == |ways| <= cfg.maxFill && n <= |old(mshr)| && mshr == old(mshr)[n..]
      ensures Shaped(g, Rows(block)) && FilledUp(g, old(Rows(block)), old(mshr), ways, cfg.maxFill, now, Rows(block))
      ensures fills == old(fills) + Blocks(old(mshr), g.blockSize, n)
      ensures replies == old(replies) + RepliesTo(old(mshr), n)
      ensures written == old(written) + WrittenBack(g, old(Rows(block)), old(mshr), ways, n)
    {
      hide W.NoneLost, LocalSilent, BlockOf, Asked, MshrInv, SetsInv, FillingInv, FilledUp, WrittenBack, RepliesTo, Blocks;
      hide FilledSoFar, Blocked, ReadySpan, IsReady;
      ghost var before, ws, back0 := replies, Rows(block), written;
      StartFills(g, ws, mshr, writes, cfg.matchOffset);
      n, ways := FillReady();
      FillStop(g, ws, back0, mshr, ways, Rows(block), written, cfg.maxFill, now);
      DropFilled(n, before);
    }

    /** Fills the registers that are ready, within the width, until one cannot be filled. */
    method FillReady() returns (n: nat, ghost ways: seq<nat>)
      requires g.ways >= 1 && QueueValid() && Shaped(g, Rows(block)) && FillingInv(g, Rows(block), mshr, writes, 0, cfg.matchOffset)
      modifies block, this`written, this`replies
      ensures n == |ways| && n <= ReadySpan(mshr, cfg.maxFill, now) && FillingInv(g, Rows(block), mshr, writes, n, cfg.matchOffset)
      ensures FilledSoFar(g, old(Rows(block)), old(written), mshr, ways, Rows(block), written)
      ensures n < ReadySpan(mshr, cfg.maxFill, now) ==> Blocked(g, Rows(block), mshr[n])
      ensures replies == old(replies) + RepliesTo(mshr, n)
    {
      hide BlockOf, MshrInv, FillingInv, Blocked, W.ReplyTo, FilledSoFar, Asked, W.NoneLost, LocalSilent, SetsInv;
      hide ReadySpan, IsReady, RepliesTo, Shaped;
      ghost var ws, back0 := Rows(block), written;
      var ready := ReadySpan(mshr, cfg.maxFill, now);
      n, ways := 0, [];
      FillStart(g, ws, written, mshr);
      RepliesNone(replies, mshr);
      while n < ready
        invariant n == |ways| <= ready && FillingInv(g, Rows(block), mshr, writes, n, cfg.matchOffset) && Shaped(g, Rows(block))
        invariant replies == old(replies) + RepliesTo(mshr, n)
        invariant FilledSoFar(g, ws, back0, mshr, ways, Rows(block), written)
        modifies block, this`written, this`replies
      {
        var ok;
        ok, ways := FillMore(n, ways, ws, back0, old(replies));
        if !ok {
          break;
        }
        n := n + 1;
      }
    }

    /** Tries the next register, `mshr[n]`, after those before it were filled. */
    method FillMore(n: nat, ghost ways: seq<nat>, ghost ws: Ways, ghost back0: seq<nat>, ghost replies0: seq<W.Reply>)
      returns (ok: bool, ghost ways': seq<nat>)
      requires g.ways >= 1 && QueueValid() && n == |ways| < |mshr| && Shaped(g, Rows(block))
      requires FillingInv(g, Rows(block), mshr, writes, n, cfg.matchOffset) && replies == replies0 + RepliesTo(mshr, n)
      requires FilledSoFar(g, ws, back0, mshr, ways, Rows(block), written)
      modifies block, this`written, this`replies
      ensures Shaped(g, Rows(block)) && |ways'| == (if ok then n + 1 else n)
      ensures FillingInv(g, Rows(block), mshr, writes, |ways'|, cfg.matchOffset) && replies == replies0 + RepliesTo(mshr, |ways'|)
      ensures FilledSoFar(g, ws, back0, mshr, ways', Rows(block), written)
      ensures !ok ==> Blocked(g, Rows(block), mshr[n])
    {
      hide BlockOf, MshrInv, FillingInv, Blocked, W.ReplyTo, FilledSoFar, VictimAt, Asked, W.NoneLost, LocalSilent, SetsInv;
      hide Filled, Listed, Evicts, RepliesTo;
      ghost var mid, back1, way := Rows(block), written, 0;
      ok, way := FillOne(n);
      ways' := ways;
      if ok {
        FillNext(g, ws, back0, mshr, ways, mid, back1, way);
        RepliesNext(replies0, mshr, n);
        ways' := ways + [way];
      }
    }

    /** Erases the first `n` registers once they have been filled. */
    method DropFilled(n: nat, ghost before: seq<W.Reply>)
      requires g.ways >= 1 && QueueValid() && LocalSilent(lookups) && n <= |mshr| && g.blockSize >= 1
      requires W.NoneLost(g.blockSize, lookups, mshr, writes, before, accepted)
      requires FillingInv(g, Rows(block), mshr, writes, n, cfg.matchOffset)
      requires replies == before + RepliesTo(mshr, n) && forall i :: 0 <= i < n ==> IsReady(mshr[i], now)
      modifies this`mshr, this`returnedCount, this`fills
      ensures Valid() && mshr == old(mshr)[n..] && fills == old(fills) + Blocks(old(mshr), g.blockSize, n)
    {
      hide W.NoneLost, LocalSilent, BlockOf, Asked, MshrInv, SetsInv, FillingInv, IsReady, Blocks;
      FillsDone(mshr, g.blockSize, cfg.capacity, returnedCount, now + Latency(), back, fills, n, now);
      FillsAnswered(g.blockSize, lookups, mshr, n, writes, before, replies, accepted);
      EndFills(g, Rows(block), mshr, writes, n, cfg.matchOffset);
      AskedDrop(g.blockSize, mshr, n, forwarded);
      fills := fills + Blocks(mshr, g.blockSize, n);
      returnedCount := returnedCount - n;
      mshr := mshr[n..];
    }

    /** Fills register `n` after those before it. */
    method FillOne(n: nat) returns (ok: bool, ghost way: nat)
      requires g.ways >= 1 && n < |mshr| && FillingInv(g, Rows(block), mshr, writes, n, cfg.matchOffset)
      requires QueueValid() && Shaped(g, Rows(block))
      modifies block, this`written, this`replies
      ensures FillingInv(g, Rows(block), mshr, writes, if ok then n + 1 else n, cfg.matchOffset)
      ensures VictimAt(g, old(Rows(block)), way, mshr[n]) && (!ok ==> Blocked(g, Rows(block), mshr[n]))
      ensures Rows(block) == if ok then Filled(g, old(Rows(block)), way, mshr[n]) else old(Rows(block))
      ensures replies == if ok then old(replies) + [W.ReplyTo(mshr[n])] else old(replies)
      ensures written
        == if ok then old(written) + Listed(Evicts(g, old(Rows(block)), g.SetOf(mshr[n].address), way)) else old(written)
    {
      hide W.NoneLost, LocalSilent, BlockOf, MshrInv, FillingInv, Filled, IsVictim, Evicts, Listed, Blocked;
      ghost var before := Rows(block);
      ok, way := HandleFill(mshr[n]);
      if ok {
        VictimFirst(g, before[g.SetOf(mshr[n].address)], way, mshr[n].kind);
        NextFill(g, before, mshr, writes, n, way, cfg, returnedCount, now + Latency(), back, fills);
      }
    }

    method FillWrites(width: nat) returns (n: nat, ghost ways: seq<nat>)
      requires Valid() && Shaped(g, Rows(block))
      modifies block, this`written, this`replies, this`writes
      ensures Valid() && n == |ways| <= width && n <= |old(writes)| && writes == old(writes)[n..]
      ensures Shaped(g, Rows(block)) && FilledUp(g, old(Rows(block)), old(writes), ways, width, now, Rows(block))
      ensures replies == old(replies) + RepliesTo(old(writes), n)
      ensures written == old(written) + WrittenBack(g, old(Rows(block)), old(writes), ways, n)
    {
      hide W.NoneLost, LocalSilent, BlockOf, Asked, MshrInv, SetsInv, Filled, IsVictim, Evicts, Listed, Blocked, W.ReplyTo, FilledSoFar;
      hide FilledUp, WrittenBack, ReadySpan, IsReady;
      ghost var ws, back0 := Rows(block), written;
      var ready := ReadySpan(writes, width, now);
      n, ways := 0, [];
      FillStart(g, ws, written, writes);
      NoWrites(g, ws, mshr, writes, cfg.matchOffset);
      while n < ready
        invariant n == |ways| <= ready && SetsInv(g, Rows(block), mshr, writes, cfg.matchOffset)
        invariant replies == old(replies) + RepliesTo(writes, n) && Shaped(g, Rows(block))
        invariant FilledSoFar(g, ws, back0, writes, ways, Rows(block), written)
        modifies block, this`written, this`replies
      {
        ghost var before, back1, way := Rows(block), written, 0;
        var ok;
        ok, way := HandleFill(writes[n]);
        if !ok {
          break;
        }
        NextWrite(g, before, mshr, writes, n, way);
        VictimIs(g, before, way, writes[n]);
        FillNext(g, ws, back0, writes, ways, before, back1, way);
        ways := ways + [way];
        n := n + 1;
      }
      FillStop(g, ws, back0, writes, ways, Rows(block), written, width, now);
      WritesAnswered(g.blockSize, lookups, mshr, writes, n, old(replies), replies, accepted);
      WritesDone(g, Rows(block), mshr, writes, n, cfg.matchOffset);
      writes := writes[n..];
    }

    // ---- tag checks ----------------------------------------------------------------------

    /** Starts the tag check of a request. */
    method InitiateTagCheck(l: W.TagLookup)
      requires Valid() && (l.prefetchFromThis ==> l.toReturn == {})
      modifies this`lookups, this`accepted
      ensures Valid() && lookups == old(lookups) + [l.(event := now + if warmup then 0 else cfg.hitLatency)]
      ensures accepted == old(accepted) + [W.Waiter(l.address, l.deps, l.toReturn, |replies|)]
    {
      hide W.NoneLost, BlockOf, Asked, MshrInv, SetsInv;
      var timed := l.(event := now + if warmup then 0 else cfg.hitLatency);
      W.AcceptStep(g.blockSize, lookups, timed, mshr, writes, replies, accepted);
      lookups := lookups + [timed];
      accepted := accepted + [W.Waiter(l.address, l.deps, l.toReturn, |replies|)];
    }

    /** Looks the block up in its set and answers the request on a hit. */
    method TryHit(l: W.TagLookup) returns (hit: bool)
      requires Shaped(g, Rows(block))
      modifies block, this`replies
      ensures Shaped(g, Rows(block)) && Looked(g, old(Rows(block)), Rows(block), l, hit)
      ensures replies == old(replies) + if hit then [W.Reply(l.address, l.deps, l.toReturn)] else []
    {
      hide BlockOf;
      var s := g.SetOf(l.address);
      var w := 0;
      ghost var before := Rows(block);
      assert |before[s]| == g.ways;
      while w < g.ways && !Holds(g, block[s, w], l.address)
        invariant w <= g.ways && forall v :: 0 <= v < w ==> !Holds(g, before[s][v], l.address)
      {
        w := w + 1;
      }
      hit := w < g.ways;
      if hit {
        var way := block[s, w];
        var useful := way.prefetch && !l.prefetchFromThis;
        replies := replies + [W.Reply(l.address, l.deps, l.toReturn)];
        block[s, w] := way.(dirty := way.dirty || l.kind == Write, prefetch := way.prefetch && !useful);
        OnePlace(before, Rows(block), s, w, Touched(way, l));
      }
    }

    /** Joins the register of the block, or forwards the miss and allocates a register. Fails
        when there is no room here or below. */
    method HandleMiss(l: W.TagLookup, ghost ls: seq<W.TagLookup>, ghost ls': seq<W.TagLookup>) returns (done: bool)
      requires MissReady(ls) && (forall x :: x in ls ==> x in ls' || x == l) && (l.prefetchFromThis ==> l.toReturn == {})
      requires Shaped(g, Rows(block)) && Absent(g, Rows(block), l.address)
      modifies this`mshr, this`forwarded
      ensures MissReady(if done then ls' else ls)
      ensures Missed(g.blockSize, cfg, old(mshr), mshr, l, now, done)
      ensures done && Joins(g.blockSize, old(mshr), l.address) ==> forwarded == old(forwarded)
      ensures done && !Joins(g.blockSize, old(mshr), l.address) ==> forwarded == old(forwarded) + [ForwardOf(cfg, l)]
      ensures !done ==> forwarded == old(forwarded)
    {
      hide W.NoneLost, BlockOf, Asked, MshrInv, SetsInv, Absent;
      var entry := FindRegister(l.address);
      if entry < |mshr| {
        MergeAll(g, Rows(block), mshr, writes, cfg, returnedCount, now + Latency(), back, fills, entry, l, now);
        W.MergeStep(g.blockSize, ls, ls', l, mshr, entry, now, writes, replies, accepted);
        AskedMerge(g.blockSize, mshr, entry, l, now, forwarded);
        mshr := mshr[entry := Merge(mshr[entry], W.Register(l, now))];
        return true;
      }
      Bounded(mshr, g.blockSize, cfg.capacity, returnedCount, now + Latency(), back, fills);
      if |mshr| == cfg.capacity {
        return false;
      }
      AskedMore(g.blockSize, cfg, mshr, l, now, forwarded);
      var taken := SendRequest(ForwardOf(cfg, l));
      if !taken {
        return false;
      }
      W.AllocateStep(g.blockSize, ls, ls', l, mshr, now, writes, replies, accepted);
      if ForwardOf(cfg, l).responseRequested {
        AllocateAll(g, Rows(block), mshr, writes, cfg, returnedCount, now + Latency(), back, fills, l, now);
        mshr := mshr + [W.Register(l, now)];
      }
      done := true;
    }

    /** The cache with `ls` as its pending lookups. */
    ghost predicate MissReady(ls: seq<W.TagLookup>)
      reads this, block
    {
      && g.Valid() && SetsInv(g, Rows(block), mshr, writes, cfg.matchOffset) && QueueValid()
      && W.NoneLost(g.blockSize, ls, mshr, writes, replies, accepted)
    }

    /** A write in a cache that keeps whole blocks waits like a fill that has already returned. */
    method HandleWrite(l: W.TagLookup, ghost ls: seq<W.TagLookup>, ghost ls': seq<W.TagLookup>) returns (done: bool)
      requires MissReady(ls) && (forall x :: x in ls ==> x in ls' || x == l) && !cfg.matchOffset
      modifies this`writes
      ensures MissReady(ls') && done
      ensures writes == old(writes) + [W.Register(l, now).(returned := Some(now + Latency()))]
    {
      hide W.NoneLost, BlockOf, MshrInv;
      var m := W.Register(l, now).(returned := Some(now + Latency()));
      W.WriteStep(g.blockSize, ls, ls', l, mshr, m, writes, replies, accepted);
      writes := writes + [m];
      done := true;
    }

    ghost function MissState(): MissView
      reads this
    {
      MissView(mshr, writes, forwarded)
    }

    /** Checks the tags of the requests that are due, up to the tag bandwidth: hits are answered,
        misses are handled in order, and those that fail stay in front of the others. */
    method CheckTags() returns (ghost c: TagTrace)
      requires Valid() && Shaped(g, Rows(block))
      modifies block, this`replies, this`mshr, this`forwarded, this`writes, this`lookups
      ensures Valid() && TagsChecked(g, cfg, now, now + Latency(), old(lookups), c, lookups)
      ensures c.states != [] && c.states[0] == old(Rows(block)) && Rows(block) == c.states[|c.states| - 1]
      ensures c.vs != [] && c.vs[0] == old(MissState()) && MissState() == c.vs[|c.vs| - 1]
      ensures replies == old(replies) + HitReplies(g, c.states[0], old(lookups)[..DueSpan(old(lookups), cfg.maxTag, now)])
    {
      hide W.NoneLost, BlockOf, Asked, MshrInv, SetsInv, LocalSilent, DueSpan, LookedAll, MissesHandled, MissesOf, HitReplies, Failed;
      var due := DueSpan(lookups, cfg.maxTag, now);
      ghost var states;
      var misses;
      misses, states := LookUp(due);
      ghost var vs, dones;
      var again;
      again, vs, dones := HandleMisses(misses, lookups[due..]);
      SilentPart(misses + lookups[due..], again + lookups[due..]);
      c := TagTrace(states, misses, vs, dones);
      StatesMatch(g, states, lookups[..due]);
      lookups := again + lookups[due..];
    }

    /** Looks up the first `due` requests and collects those that miss. */
    method LookUp(due: nat) returns (misses: seq<W.TagLookup>, ghost states: seq<Ways>)
      requires Valid() && due <= |lookups| && Shaped(g, Rows(block))
      modifies block, this`replies
      ensures MissReady(misses + lookups[due..]) && Shaped(g, Rows(block))
      ensures LocalSilent(misses + lookups[due..]) && AllAbsent(g, Rows(block), misses)
      ensures LookedAll(g, states, lookups[..due]) && states[0] == old(Rows(block)) && Rows(block) == states[due]
      ensures misses == MissesOf(g, old(Rows(block)), lookups[..due])
      ensures replies == old(replies) + HitReplies(g, old(Rows(block)), lookups[..due])
    {
      hide W.NoneLost, BlockOf, Asked, MshrInv, SetsInv, LocalSilent, AllAbsent, Looked, LookedAll, MissesOf, HitReplies, SamePresence;
      ghost var start := Rows(block);
      misses, states := [], [start];
      NoneAbsent(g, start);
      LookStart(g, start, lookups);
      assert [] + lookups[0..] == lookups;
      for i := 0 to due
        modifies block, this`replies
        invariant MissReady(misses + lookups[i..]) && LocalSilent(misses + lookups[i..])
        invariant Shaped(g, Rows(block)) && AllAbsent(g, Rows(block), misses) && |states| == i + 1
        invariant states[0] == start && states[i] == Rows(block)
        invariant LookedAll(g, states, lookups[..i]) && SamePresence(g, start, Rows(block))
        invariant misses == MissesOf(g, start, lookups[..i]) && replies == old(replies) + HitReplies(g, start, lookups[..i])
      {
        ghost var before, answered, l := Rows(block), replies, lookups[i];
        var hit := TryHit(lookups[i]);
        LookNext(g, states, lookups, i, Rows(block), hit);
        states := states + [Rows(block)];
        LookedStep(g, before, Rows(block), mshr, writes, cfg.matchOffset, l, hit, misses);
        TakeOne(misses, lookups, i);
        if hit {
          W.HitStep(g.blockSize, misses + lookups[i..], misses + lookups[i + 1..], l, mshr, writes, answered, accepted);
          SilentPart(misses + lookups[i..], misses + lookups[i + 1..]);
        } else {
          assert replies == answered;
          misses := misses + [lookups[i]];
        }
      }
    }

    /** Handles the misses in order; `rest` are the requests that are not due. */
    method HandleMisses(misses: seq<W.TagLookup>, ghost rest: seq<W.TagLookup>)
      returns (failed: seq<W.TagLookup>, ghost vs: seq<MissView>, ghost dones: seq<bool>)
      requires MissReady(misses + rest) && LocalSilent(misses + rest) && Shaped(g, Rows(block)) && AllAbsent(g, Rows(block), misses)
      modifies this`mshr, this`forwarded, this`writes
      ensures MissReady(failed + rest) && MissesHandled(g.blockSize, cfg, vs, misses, now, now + Latency(), dones)
      ensures |vs| == |misses| + 1 && vs[0] == old(MissState()) && MissState() == vs[|misses|] && failed == Failed(misses, dones)
      ensures forall l :: l in failed ==> l in misses
    {
      hide W.NoneLost, BlockOf, Asked, MshrInv, SetsInv, AllAbsent, MissHandled, MissesHandled, Failed;
      failed, vs, dones := [], [MissState()], [];
      MissStart(g.blockSize, cfg, MissState(), misses, now, now + Latency());
      assert [] + misses[0..] + rest == misses + rest;
      for i := 0 to |misses|
        invariant MissReady(failed + misses[i..] + rest) && |vs| == i + 1 && |dones| == i
        invariant vs[0] == old(MissState()) && vs[i] == MissState()
        invariant MissesHandled(g.blockSize, cfg, vs, misses[..i], now, now + Latency(), dones) && failed == Failed(misses[..i], dones)
        invariant forall l :: l in failed ==> l in misses
      {
        var done := HandleOne(failed, misses, rest, i);
        MissNext(g.blockSize, cfg, vs, misses, i, now, now + Latency(), dones, MissState(), done);
        vs, dones := vs + [MissState()], dones + [done];
        if !done {
          failed := failed + [misses[i]];
        }
      }
      assert failed + misses[|misses|..] + rest == failed + rest && misses[..|misses|] == misses;
    }

    /** Handles the `i`-th miss; it stays pending if it fails. */
    method HandleOne(failed: seq<W.TagLookup>, misses: seq<W.TagLookup>, ghost rest: seq<W.TagLookup>, i: nat) returns (done: bool)
      requires i < |misses| && MissReady(failed + misses[i..] + rest) && LocalSilent(misses + rest)
      requires Shaped(g, Rows(block)) && AllAbsent(g, Rows(block), misses)
      modifies this`mshr, this`forwarded, this`writes
      ensures MissReady((if done then failed else failed + [misses[i]]) + misses[i + 1..] + rest)
      ensures MissHandled(g.blockSize, cfg, old(MissState()), MissState(), misses[i], now, now + Latency(), done)
    {
      hide W.NoneLost, BlockOf, Asked, MshrInv, SetsInv, AllAbsent, Missed, Joins;
      ghost var ls, ls' := failed + misses[i..] + rest, failed + misses[i + 1..] + rest;
      TakeMiss(failed, misses, rest, i);
      AbsentAt(g, Rows(block), misses, i);
      assert misses[i] in misses + rest;
      if misses[i].kind == Write && !cfg.matchOffset {
        done := HandleWrite(misses[i], ls, ls');
      } else {
        done := HandleMiss(misses[i], ls, ls');
      }
    }

    // ---- one cycle -----------------------------------------------------------------------

    ghost function View(): CacheView
      reads this, block
    {
      CacheView(Rows(block), mshr, writes, lookups, replies, written, forwarded)
    }

    function HitLatency(): nat
      reads this
    {
      if warmup then 0 else cfg.hitLatency
    }

    /** Starts the tag checks of requests. */
    method InitiateAll(arriving: seq<W.TagLookup>)
      requires Valid() && LocalSilent(arriving)
      modifies this`lookups, this`accepted
      ensures Valid() && lookups == old(lookups) + Timed(arriving, now + HitLatency())
      ensures |accepted| == |old(accepted)| + |arriving| && old(accepted) <= accepted
      ensures forall i :: 0 <= i < |arriving| ==>
        accepted[|old(accepted)| + i] == W.Waiter(arriving[i].address, arriving[i].deps, arriving[i].toReturn, |replies|)
    {
      hide W.NoneLost, BlockOf, Asked, MshrInv, SetsInv;
      for i := 0 to |arriving|
        invariant Valid() && |accepted| == |old(accepted)| + i && old(accepted) <= accepted
        invariant lookups == old(lookups) + Timed(arriving[..i], now + HitLatency())
        invariant forall j :: 0 <= j < i ==>
          accepted[|old(accepted)| + j] == W.Waiter(arriving[j].address, arriving[j].deps, arriving[j].toReturn, |replies|)
      {
        assert arriving[i] in arriving;
        InitiateTagCheck(arriving[i]);
        assert Timed(arriving[..i + 1], now + HitLatency())
            == Timed(arriving[..i], now + HitLatency()) + [arriving[i].(event := now + HitLatency())];
      }
      assert arriving[..|arriving|] == arriving;
    }

    /** One cycle: `responses` came back from below, and the tag checks of `arriving` start. */
    method Operate(responses: seq<nat>, arriving: seq<W.TagLookup>) returns (ghost c: CacheTrace)
      requires Valid() && Answers(g.blockSize, mshr, responses, 0) && LocalSilent(arriving)
      modifies this`mshr, this`returnedCount, this`back, block, this`written, this`replies, this`writes, this`fills,
               this`lookups, this`accepted, this`forwarded
      ensures Valid() && |accepted| == |old(accepted)| + |arriving|
      ensures forall i :: 0 <= i < |arriving| ==> TakenOnFrom(accepted[|old(accepted)| + i], arriving[i], |old(replies)|)
      ensures old(accepted) <= accepted && old(replies) <= replies
      ensures CacheCycle(g, cfg, now, Latency(), HitLatency(), old(returnedCount), old(View()), responses, arriving, c, View())
    {
      hide Valid, Answers, FilledUp, WrittenBack, RepliesTo, Blocks, TagsChecked, HitReplies, ReturnsDone, LocalSilent, DueSpan;
      ShapedNow();
      ghost var qs := FinishReturns(responses);
      ghost var mid, missWays, storeWays;
      var misses, stores;
      misses, stores, mid, missWays, storeWays := PerformFills();
      ShapedNow();
      FilledShape(g, old(Rows(block)), qs[|responses|], missWays, cfg.maxFill, now, mid);
      InitiateAll(arriving);
      ghost var tags := CheckTags();
      c := CacheTrace(qs, missWays, mid, storeWays, tags);
    }

    lemma ShapedNow()
      requires Valid()
      ensures Shaped(g, Rows(block))
    {
    }

    /** Invalidates the first way of the block's set that is tagged with it, valid or not. The
        block is gone afterwards exactly when no valid copy was behind that way, which is always
        so in a cache whose writes carry whole addresses. */
    method InvalidateEntry(address: nat) returns (way: nat)
      requires Valid()
      modifies block
      ensures Valid() && way <= g.ways
      ensures way < g.ways ==> g.Block(old(Rows(block))[g.SetOf(address)][way].address) == g.Block(address)
      ensures forall v :: 0 <= v < way ==> g.Block(old(Rows(block))[g.SetOf(address)][v].address) != g.Block(address)
      ensures Rows(block) == Invalidated(g, old(Rows(block)), g.SetOf(address), way)
      ensures Absent(g, Rows(block), address) <==>
        forall v :: way < v < g.ways ==> !Holds(g, old(Rows(block))[g.SetOf(address)][v], address)
      ensures cfg.matchOffset ==> Absent(g, Rows(block), address)
    {
      hide BlockOf, W.NoneLost, MshrInv, FirstTagged, Exclusive, Absent;
      var s := g.SetOf(address);
      ghost var before: Ways := Rows(block);
      assert |before[s]| == g.ways;
      way := 0;
      while way < g.ways && g.Block(block[s, way].address) != g.Block(address)
        invariant way <= g.ways && forall v :: 0 <= v < way ==> g.Block(before[s][v].address) != g.Block(address)
      {
        way := way + 1;
      }
      InvalidateStep(g, before, way, address);
      if way < g.ways {
        block[s, way] := block[s, way].(valid := false);
        OnePlace(before, Rows(block), s, way, block[s, way]);
        FlagSets(g, before, Rows(block), mshr, writes, cfg.matchOffset, s, way);
      }
    }
  }

  lemma MergeAll(g: Shape, ws: Ways, q: seq<Mshr>, writes: seq<Mshr>, cfg: Config, k: nat, limit: nat,
                 back: seq<nat>, fills: seq<nat>, i: nat, l: W.TagLookup, now: nat)
    requires SetsInv(g, ws, q, writes, cfg.matchOffset) && MshrInv(q, g.blockSize, cfg.capacity, k, limit, back, fills)
    requires i < |q| && BlockOf(q[i].address, g.blockSize) == BlockOf(l.address, g.blockSize)
    ensures var q' := q[i := Merge(q[i], W.Register(l, now))];
      SetsInv(g, ws, q', writes, cfg.matchOffset) && MshrInv(q', g.blockSize, cfg.capacity, k, limit, back, fills)
  {
    MergedStep(q, g.blockSize, cfg.capacity, k, limit, back, fills, i, W.Register(l, now));
    hide OwnSets, MshrInv, Exclusive, BlockOf;
    if cfg.matchOffset {
      RegistersStep(g, ws, q, q[i := Merge(q[i], W.Register(l, now))], 0);
    }
  }

  lemma AllocateAll(g: Shape, ws: Ways, q: seq<Mshr>, writes: seq<Mshr>, cfg: Config, k: nat, limit: nat,
                    back: seq<nat>, fills: seq<nat>, l: W.TagLookup, now: nat)
    requires SetsInv(g, ws, q, writes, cfg.matchOffset) && MshrInv(q, g.blockSize, cfg.capacity, k, limit, back, fills)
    requires |q| < cfg.capacity && Absent(g, ws, l.address)
    requires forall i :: 0 <= i < |q| ==> BlockOf(q[i].address, g.blockSize) != BlockOf(l.address, g.blockSize)
    ensures SetsInv(g, ws, q + [W.Register(l, now)], writes, cfg.matchOffset)
    ensures MshrInv(q + [W.Register(l, now)], g.blockSize, cfg.capacity, k, limit, back, fills)
  {
    AllocatedStep(q, g.blockSize, cfg.capacity, k, limit, back, fills, W.Register(l, now));
    hide OwnSets, MshrInv, Exclusive, BlockOf, Absent;
    if cfg.matchOffset {
      RegistersStep(g, ws, q, q + [W.Register(l, now)], 0);
    }
  }

  lemma Bounded(q: seq<Mshr>, size: nat, capacity: nat, k: nat, limit: nat, back: seq<nat>, fills: seq<nat>)
    requires MshrInv(q, size, capacity, k, limit, back, fills)
    ensures |q| <= capacity
  {
  }

  lemma NoneAbsent(g: Shape, ws: Ways)
    requires Shaped(g, ws)
    ensures AllAbsent(g, ws, [])
  {
  }

  lemma AbsentAt(g: Shape, ws: Ways, ls: seq<W.TagLookup>, i: nat)
    requires Shaped(g, ws) && AllAbsent(g, ws, ls) && i < |ls|
    ensures Absent(g, ws, ls[i].address)
  {
    hide Absent;
  }

  lemma SilentPart(ls: seq<W.TagLookup>, ls': seq<W.TagLookup>)
    requires LocalSilent(ls) && forall l :: l in ls' ==> l in ls
    ensures LocalSilent(ls')
  {
  }

  lemma TakeOne(misses: seq<W.TagLookup>, ls: seq<W.TagLookup>, i: nat)
    requires i < |ls|
    ensures misses + [ls[i]] + ls[i + 1..] == misses + ls[i..]
    ensures forall l :: l in misses + ls[i..] <==> l in misses + ls[i + 1..] || l == ls[i]
  {
    assert ls[i..] == [ls[i]] + ls[i + 1..];
  }

  lemma TakeMiss(failed: seq<W.TagLookup>, misses: seq<W.TagLookup>, rest: seq<W.TagLookup>, i: nat)
    requires i < |misses|
    ensures failed + [misses[i]] + misses[i + 1..] + rest == failed + misses[i..] + rest
    ensures forall l :: l in failed + misses[i..] + rest ==> l in failed + misses[i + 1..] + rest || l == misses[i]
  {
    assert misses[i..] == [misses[i]] + misses[i + 1..];
  }

  /** Looking up moves no block, and a miss means that the block is nowhere. */
  lemma LookedStep(g: Shape, ws: Ways, ws': Ways, q: seq<Mshr>, writes: seq<Mshr>, strict: bool, l: W.TagLookup, hit: bool,
                   misses: seq<W.TagLookup>)
    requires SetsInv(g, ws, q, writes, strict) && Looked(g, ws, ws', l, hit) && AllAbsent(g, ws, misses)
    ensures SetsInv(g, ws', q, writes, strict)
    ensures AllAbsent(g, ws', if hit then misses else misses + [l])
  {
    if hit {
      var w :| 0 <= w < g.ways && HitsAt(g, ws, l, w) && ws' == Put(g, ws, g.SetOf(l.address), w, Touched(ws[g.SetOf(l.address)][w], l));
      hide BlockOf;
      FlagStep(g, ws, ws', q, 0);
      hide OwnSets, Exclusive, Absent;
    } else {
      MissIsAbsent(g, ws, l.address);
      hide OwnSets, Exclusive, Absent, BlockOf;
    }
  }

  lemma FlagSets(g: Shape, ws: Ways, ws': Ways, q: seq<Mshr>, writes: seq<Mshr>, strict: bool, s: nat, w: nat)
    requires SetsInv(g, ws, q, writes, strict) && s < g.sets && w < g.ways
    requires ws' == Put(g, ws, s, w, ws[s][w].(valid := false))
    ensures SetsInv(g, ws', q, writes, strict)
  {
    hide BlockOf;
    FlagStep(g, ws, ws', q, 0);
    hide OwnSets, Exclusive, Absent;
  }

  lemma NextAwaited(size: nat, q: seq<Mshr>, responses: seq<nat>, i: nat)
    requires size >= 1 && Answers(size, q, responses, i) && i < |responses|
    ensures Awaits(size, q, responses[i])
  {
  }

  lemma StatesMatch(g: Shape, states: seq<Ways>, ls: seq<W.TagLookup>)
    requires LookedAll(g, states, ls)
    ensures |states| == |ls| + 1
  {
  }

  lemma FilledShape(g: Shape, ws: Ways, q: seq<Mshr>, ways: seq<nat>, width: nat, now: nat, ws': Ways)
    requires FilledUp(g, ws, q, ways, width, now, ws')
    ensures Shaped(g, ws') && |ways| <= |q|
  {
  }

  lemma VictimIs(g: Shape, ws: Ways, way: nat, m: Mshr)
    requires Shaped(g, ws) && IsVictim(g, ws[g.SetOf(m.address)], way, m.kind)
    ensures VictimAt(g, ws, way, m)
  {
  }

  lemma StartFills(g: Shape, ws: Ways, q: seq<Mshr>, writes: seq<Mshr>, strict: bool)
    requires SetsInv(g, ws, q, writes, strict)
    ensures Shaped(g, ws) && FillingInv(g, ws, q, writes, 0, strict)
  {
  }

  /** Only valid ways come before the victim. */
  lemma VictimFirst(g: Shape, row: seq<Way>, way: nat, kind: Access)
    requires IsVictim(g, row, way, kind)
    ensures |row| == g.ways && forall v :: 0 <= v < way ==> row[v].valid
  {
  }

  lemma NextFill(g: Shape, ws: Ways, q: seq<Mshr>, writes: seq<Mshr>, n: nat, way: nat, cfg: Config, k: nat, limit: nat,
                 back: seq<nat>, fills: seq<nat>)
    requires FillingInv(g, ws, q, writes, n, cfg.matchOffset) && n < |q|
    requires MshrInv(q, g.blockSize, cfg.capacity, k, limit, back, fills)
    requires way < g.ways ==> forall v :: 0 <= v < way ==> ws[g.SetOf(q[n].address)][v].valid
    ensures FillingInv(g, Filled(g, ws, way, q[n]), q, writes, n + 1, cfg.matchOffset)
  {
    hide BlockOf, ReturnOrdered, ReadyBy;
    if way < g.ways {
      FillOwnSets(g, ws, way, FillBlock(q[n]));
      if cfg.matchOffset {
        FillExclusive(g, ws, q, n, way);
        assert Absent(g, ws, q[n].address);
        FillFirstTagged(g, ws, way, FillBlock(q[n]));
      }
      hide OwnSets, HeldOnce, NotYetHeld;
    }
  }

  lemma EndFills(g: Shape, ws: Ways, q: seq<Mshr>, writes: seq<Mshr>, n: nat, strict: bool)
    requires FillingInv(g, ws, q, writes, n, strict)
    ensures SetsInv(g, ws, q[n..], writes, strict)
  {
    hide OwnSets, HeldOnce, Absent;
  }

  lemma ReadyReturned(q: seq<Mshr>, size: nat, capacity: nat, k: nat, limit: nat, back: seq<nat>, fills: seq<nat>, n: nat, now: nat)
    requires MshrInv(q, size, capacity, k, limit, back, fills) && n <= |q| && forall i :: 0 <= i < n ==> IsReady(q[i], now)
    ensures n <= k
  {
    hide DistinctBlocks, ReadyBy;
    assert k < |q| ==> q[k].returned.None?;
  }

  lemma FillsDone(q: seq<Mshr>, size: nat, capacity: nat, k: nat, limit: nat, back: seq<nat>, fills: seq<nat>, n: nat, now: nat)
    requires MshrInv(q, size, capacity, k, limit, back, fills) && n <= |q| && forall i :: 0 <= i < n ==> IsReady(q[i], now)
    ensures n <= k && MshrInv(q[n..], size, capacity, k - n, limit, back, fills + Blocks(q, size, n))
  {
    ReadyReturned(q, size, capacity, k, limit, back, fills, n, now);
    FilledStep(q, size, capacity, k, limit, back, fills, n);
  }

  lemma FillsAnswered(size: nat, ls: seq<W.TagLookup>, q: seq<Mshr>, n: nat, writes: seq<Mshr>,
                      before: seq<W.Reply>, replies: seq<W.Reply>, accepted: seq<W.Waiter>)
    requires size >= 1 && W.NoneLost(size, ls, q, writes, before, accepted) && n <= |q|
    requires replies == before + RepliesTo(q, n)
    ensures W.NoneLost(size, ls, q[n..], writes, replies, accepted)
  {
    hide W.NoneLost;
    RepliesAt(q, n);
    W.FilledStep(size, ls, q, n, writes, before, replies, accepted);
  }

  lemma WritesAnswered(size: nat, ls: seq<W.TagLookup>, q: seq<Mshr>, writes: seq<Mshr>, n: nat,
                       before: seq<W.Reply>, replies: seq<W.Reply>, accepted: seq<W.Waiter>)
    requires size >= 1 && W.NoneLost(size, ls, q, writes, before, accepted) && n <= |writes|
    requires replies == before + RepliesTo(writes, n)
    ensures W.NoneLost(size, ls, q, writes[n..], replies, accepted)
  {
    hide W.NoneLost;
    RepliesAt(writes, n);
    W.WrittenStep(size, ls, q, writes, n, before, replies, accepted);
  }

  lemma NoWrites(g: Shape, ws: Ways, q: seq<Mshr>, writes: seq<Mshr>, strict: bool)
    requires SetsInv(g, ws, q, writes, strict)
    ensures strict ==> writes == []
  {
  }

  lemma NextWrite(g: Shape, ws: Ways, q: seq<Mshr>, writes: seq<Mshr>, n: nat, way: nat)
    requires SetsInv(g, ws, q, writes, false) && n < |writes|
    ensures SetsInv(g, Filled(g, ws, way, writes[n]), q, writes, false)
  {
    hide BlockOf;
    if way < g.ways {
      FillOwnSets(g, ws, way, FillBlock(writes[n]));
      hide OwnSets;
    }
  }

  lemma WritesDone(g: Shape, ws: Ways, q: seq<Mshr>, writes: seq<Mshr>, n: nat, strict: bool)
    requires SetsInv(g, ws, q, writes, strict) && n <= |writes|
    ensures SetsInv(g, ws, q, writes[n..], strict)
  {
  }

  lemma UniqueRegister(q: seq<Mshr>, size: nat, capacity: nat, k: nat, limit: nat, back: seq<nat>, fills: seq<nat>,
                       address: nat, entry: nat, first: nat)
    requires MshrInv(q, size, capacity, k, limit, back, fills) && Awaits(size, q, address)
    requires entry <= |q| && (entry < |q| ==> BlockOf(q[entry].address, size) == BlockOf(address, size))
    requires forall j :: 0 <= j < entry ==> BlockOf(q[j].address, size) != BlockOf(address, size)
    requires first <= |q| && (first < |q| ==> q[first].returned.None?) && forall j :: 0 <= j < first ==> q[j].returned.Some?
    ensures entry < |q| && q[entry].returned.None? && first == k < |q| && Outstanding(size, q[entry], address)
  {
    hide BlockOf;
    var j :| 0 <= j < |q| && Outstanding(size, q[j], address);
    assert j == entry && k <= j;
    assert q[k].returned.None?;
  }

  lemma SwapSets(g: Shape, ws: Ways, q: seq<Mshr>, writes: seq<Mshr>, strict: bool, k: nat, j: nat, time: nat)
    requires SetsInv(g, ws, q, writes, strict) && k < |q| && j < |q|
    ensures SetsInv(g, ws, SwapIn(q, k, j, time), writes, strict)
  {
    var q' := SwapIn(q, k, j, time);
    hide OwnSets, HeldOnce, BlockOf, Absent;
    if strict {
      forall i | 0 <= i < |q'| ensures Absent(g, ws, q'[i].address) {
        assert Absent(g, ws, q[if i == k then j else if i == j then k else i].address);
      }
    }
  }

  lemma StillAnswers(size: nat, q: seq<Mshr>, q': seq<Mshr>, responses: seq<nat>, n: nat, k: nat, time: nat)
    requires size >= 1 && n < |responses| && Answers(size, q, responses, n) && Returned(size, q, q', responses[n], k, time)
    ensures Answers(size, q', responses, n + 1) && |q'| == |q|
  {
    var j :| 0 <= j < |q| && Outstanding(size, q[j], responses[n]) && q' == SwapIn(q, k, j, time);
    hide BlockOf;
    forall i | n + 1 <= i < |responses| ensures Awaits(size, q', responses[i]) {
      assert Awaits(size, q, responses[i]);
      var m :| 0 <= m < |q| && Outstanding(size, q[m], responses[i]);
      assert Outstanding(size, q'[if m == k then j else m], responses[i]);
    }
  }
}
