/** What the steps of a cache's cycle do to its sets, registers and pending lookups. */
module CacheSteps {
  import opened Prelude
  import opened MissStatus
  import opened CacheSets
  import W = CacheWaiters

  datatype Config = Config(capacity: nat, hitLatency: nat, fillLatency: nat, maxTag: nat, maxFill: nat,
                           prefetchAsLoad: bool, matchOffset: bool)

  /** What goes to the lower level. */
  datatype Forward = Forward(toReads: bool, kind: Access, address: nat, responseRequested: bool)

  /** Local prefetches have nobody to answer. */
  ghost predicate LocalSilent(ls: seq<W.TagLookup>) {
    forall l :: l in ls && l.prefetchFromThis ==> l.toReturn == {}
  }

  /** In a cache whose writes carry whole addresses a block is held or awaited once, behind no
      stale tag of its own, and no write is pending; everywhere a block is only in its own set. */
  ghost predicate SetsInv(g: Shape, ws: Ways, q: seq<Mshr>, writes: seq<Mshr>, strict: bool) {
    && Shaped(g, ws) && OwnSets(g, ws)
    && (strict ==> Exclusive(g, ws, q, 0) && FirstTagged(g, ws) && writes == [])
  }

  /** The outstanding register that waits for the block of `address`. */
  ghost predicate Awaits(size: nat, q: seq<Mshr>, address: nat)
    requires size >= 1
  {
    exists j :: 0 <= j < |q| && Outstanding(size, q[j], address)
  }

  ghost predicate Outstanding(size: nat, m: Mshr, address: nat)
    requires size >= 1
  {
    m.returned.None? && BlockOf(m.address, size) == BlockOf(address, size)
  }

  /** One response for each of some outstanding misses. */
  ghost predicate Answers(size: nat, q: seq<Mshr>, responses: seq<nat>, from: nat)
    requires size >= 1
  {
    && (forall i :: from <= i < |responses| ==> Awaits(size, q, responses[i]))
    && (forall i, j :: from <= i < j < |responses| ==> BlockOf(responses[i], size) != BlockOf(responses[j], size))
  }

  /** The register that awaited the block is ready at `time` and is now the `k`-th. */
  ghost predicate Returned(size: nat, q: seq<Mshr>, q': seq<Mshr>, address: nat, k: nat, time: nat)
    requires size >= 1
  {
    k < |q| && exists j :: 0 <= j < |q| && Outstanding(size, q[j], address) && q' == SwapIn(q, k, j, time)
  }

  predicate IsReady(m: Mshr, now: nat) {
    m.returned.Some? && m.returned.value <= now
  }

  /** How many registers can be filled now. */
  function ReadySpan(q: seq<Mshr>, width: nat, now: nat): (n: nat)
    ensures n <= |q| && n <= width && forall i :: 0 <= i < n ==> IsReady(q[i], now)
    ensures forall i :: 0 <= i < n ==> q[i].returned.Some? && q[i].returned.value <= now
    ensures n < |q| && n < width ==> q[n].returned.None? || q[n].returned.value > now
  {
    Span(q, width, m => IsReady(m, now))
  }

  function RepliesTo(q: seq<Mshr>, n: nat): seq<W.Reply>
    requires n <= |q|
  {
    if n == 0 then [] else RepliesTo(q, n - 1) + [W.ReplyTo(q[n - 1])]
  }

  lemma RepliesNext(before: seq<W.Reply>, q: seq<Mshr>, n: nat)
    requires n < |q|
    ensures before + RepliesTo(q, n) + [W.ReplyTo(q[n])] == before + RepliesTo(q, n + 1)
  {
    hide W.ReplyTo;
  }

  lemma RepliesNone(before: seq<W.Reply>, q: seq<Mshr>)
    ensures before + RepliesTo(q, 0) == before
  {
  }

  /** The first invalid way; when all are valid, any way, or none unless a write is filled. */
  ghost predicate IsVictim(g: Shape, row: seq<Way>, way: nat, kind: Access) {
    && way <= g.ways == |row|
    && (forall v :: 0 <= v < way && v < |row| && way < |row| && !row[way].valid ==> row[v].valid)
    && (way == g.ways || row[way].valid ==> forall v :: 0 <= v < |row| ==> row[v].valid)
    && (kind == Write ==> way < g.ways)
  }

  /** The dirty block that filling this way writes back. */
  ghost function Evicts(g: Shape, ws: Ways, s: nat, way: nat): Option<nat>
    requires Shaped(g, ws) && s < g.sets
  {
    if way < g.ways && ws[s][way].valid && ws[s][way].dirty then Some(ws[s][way].address) else None
  }

  ghost function Listed<T>(o: Option<T>): seq<T> {
    if o.Some? then [o.value] else []
  }

  ghost function Filled(g: Shape, ws: Ways, way: nat, m: Mshr): (ws': Ways)
    requires Shaped(g, ws)
    ensures Shaped(g, ws')
  {
    if way < g.ways then Put(g, ws, g.SetOf(m.address), way, FillBlock(m)) else ws
  }

  /** Filling may need to write a dirty victim back. */
  ghost predicate Blocked(g: Shape, ws: Ways, m: Mshr) {
    Shaped(g, ws) && exists way :: IsVictim(g, ws[g.SetOf(m.address)], way, m.kind) && Evicts(g, ws, g.SetOf(m.address), way) != None
  }

  /** The state of the sets while the first `n` registers have been filled. */
  ghost predicate FillingInv(g: Shape, ws: Ways, q: seq<Mshr>, writes: seq<Mshr>, n: nat, strict: bool) {
    Shaped(g, ws) && OwnSets(g, ws) && n <= |q| && (strict ==> Exclusive(g, ws, q, n) && FirstTagged(g, ws) && writes == [])
  }

  /** The requests at the front whose tag check is due. */
  function DueSpan(ls: seq<W.TagLookup>, width: nat, now: nat): (n: nat)
    ensures n <= |ls| && n <= width && forall i :: 0 <= i < n ==> ls[i].event <= now
    ensures n < |ls| && n < width ==> ls[n].event > now
  {
    Span(ls, width, (l: W.TagLookup) => l.event <= now)
  }

  ghost predicate AllAbsent(g: Shape, ws: Ways, ls: seq<W.TagLookup>)
    requires Shaped(g, ws)
  {
    forall l :: l in ls ==> Absent(g, ws, l.address)
  }

  /** A way after a hit: a write makes it dirty, and a demand uses up its prefetch mark. */
  function Touched(way: Way, l: W.TagLookup): Way {
    way.(dirty := way.dirty || l.kind == Write, prefetch := way.prefetch && l.prefetchFromThis)
  }

  /** The lookup hits exactly when a way of its set holds the block, and touches only the first
      such way. */
  ghost predicate Looked(g: Shape, ws: Ways, ws': Ways, l: W.TagLookup, hit: bool)
    requires Shaped(g, ws)
  {
    var s := g.SetOf(l.address);
    if hit then exists w :: 0 <= w < g.ways && HitsAt(g, ws, l, w) && ws' == Put(g, ws, s, w, Touched(ws[s][w], l))
    else ws' == ws && forall w :: 0 <= w < g.ways ==> !Holds(g, ws[s][w], l.address)
  }

  ghost predicate HitsAt(g: Shape, ws: Ways, l: W.TagLookup, w: nat)
    requires Shaped(g, ws) && w < g.ways
  {
    var s := g.SetOf(l.address);
    Holds(g, ws[s][w], l.address) && forall v :: 0 <= v < w ==> !Holds(g, ws[s][v], l.address)
  }

  /** What a miss asks the lower level for: its own block, with ownership if it is to be written,
      and a response exactly if this level will be filled or someone waits. */
  function ForwardOf(cfg: Config, l: W.TagLookup): (f: Forward)
    ensures f.address == l.address && f.kind != Write && (f.kind == l.kind || (l.kind == Write && f.kind == Rfo))
    ensures f.responseRequested <==> !(l.prefetchFromThis && l.skipFill)
    ensures f.toReads <==> l.kind != Prefetch || cfg.prefetchAsLoad
  {
    Forward(cfg.prefetchAsLoad || l.kind != Prefetch, if l.kind == Write then Rfo else l.kind, l.address,
            !l.prefetchFromThis || !l.skipFill)
  }

  ghost predicate Joins(size: nat, q: seq<Mshr>, address: nat)
    requires size >= 1
  {
    exists i :: 0 <= i < |q| && WaitsFor(size, q[i], address)
  }

  ghost predicate WaitsFor(size: nat, m: Mshr, address: nat)
    requires size >= 1
  {
    BlockOf(m.address, size) == BlockOf(address, size)
  }

  /** A miss joins the register of its block if there is one; otherwise it fails, or gets a
      register of its own exactly when it asked for a response. */
  ghost predicate Missed(size: nat, cfg: Config, q: seq<Mshr>, q': seq<Mshr>, l: W.TagLookup, now: nat, done: bool)
    requires size >= 1
  {
    if Joins(size, q, l.address) then
      done && exists i :: 0 <= i < |q| && WaitsFor(size, q[i], l.address) && q' == q[i := Merge(q[i], W.Register(l, now))]
    else if done then |q| < cfg.capacity && q' == q + if ForwardOf(cfg, l).responseRequested then [W.Register(l, now)] else []
    else q' == q
  }

  /** The record of a request that only replies from position `start` on can answer. */
  ghost predicate TakenOnFrom(a: W.Waiter, l: W.TagLookup, start: nat) {
    a == W.Waiter(l.address, l.deps, l.toReturn, a.since) && a.since >= start
  }

  /** The lower level has been asked for the block, with a response. */
  ghost predicate AskedFor(size: nat, m: Mshr, forwarded: seq<Forward>)
    requires size >= 1
  {
    exists i :: 0 <= i < |forwarded| && forwarded[i].responseRequested && BlockOf(forwarded[i].address, size) == BlockOf(m.address, size)
  }

  /** It has been asked for every block that a register waits for, and never by a write. */
  ghost predicate Asked(size: nat, q: seq<Mshr>, forwarded: seq<Forward>)
    requires size >= 1
  {
    && (forall i :: 0 <= i < |q| ==> AskedFor(size, q[i], forwarded))
    && forall i :: 0 <= i < |forwarded| ==> forwarded[i].kind != Write
  }

  lemma AskedKept(size: nat, q: seq<Mshr>, q': seq<Mshr>, forwarded: seq<Forward>)
    requires size >= 1 && Asked(size, q, forwarded)
    requires forall i :: 0 <= i < |q'| ==> exists j :: 0 <= j < |q| && BlockOf(q[j].address, size) == BlockOf(q'[i].address, size)
    ensures Asked(size, q', forwarded)
  {
    hide BlockOf;
    forall i | 0 <= i < |q'| ensures AskedFor(size, q'[i], forwarded) {
      var j :| 0 <= j < |q| && BlockOf(q[j].address, size) == BlockOf(q'[i].address, size);
      assert AskedFor(size, q[j], forwarded);
    }
  }

  lemma AskedSwap(size: nat, q: seq<Mshr>, k: nat, j: nat, time: nat, forwarded: seq<Forward>)
    requires size >= 1 && Asked(size, q, forwarded) && k < |q| && j < |q|
    ensures Asked(size, SwapIn(q, k, j, time), forwarded)
  {
    hide BlockOf;
    var q' := SwapIn(q, k, j, time);
    forall i | 0 <= i < |q'| ensures exists m :: 0 <= m < |q| && BlockOf(q[m].address, size) == BlockOf(q'[i].address, size) {
      var m := if i == k then j else if i == j then k else i;
      assert BlockOf(q[m].address, size) == BlockOf(q'[i].address, size);
    }
    AskedKept(size, q, q', forwarded);
  }

  lemma AskedDrop(size: nat, q: seq<Mshr>, n: nat, forwarded: seq<Forward>)
    requires size >= 1 && Asked(size, q, forwarded) && n <= |q|
    ensures Asked(size, q[n..], forwarded)
  {
    hide BlockOf;
    forall i | 0 <= i < |q| - n ensures AskedFor(size, q[n..][i], forwarded) {
      assert AskedFor(size, q[n + i], forwarded);
    }
  }

  lemma AskedMerge(size: nat, q: seq<Mshr>, i: nat, l: W.TagLookup, now: nat, forwarded: seq<Forward>)
    requires size >= 1 && Asked(size, q, forwarded) && i < |q| && BlockOf(q[i].address, size) == BlockOf(l.address, size)
    ensures Asked(size, q[i := Merge(q[i], W.Register(l, now))], forwarded)
  {
    hide BlockOf;
    var q' := q[i := Merge(q[i], W.Register(l, now))];
    forall j | 0 <= j < |q'| ensures exists m :: 0 <= m < |q| && BlockOf(q[m].address, size) == BlockOf(q'[j].address, size) {
      assert BlockOf(q[j].address, size) == BlockOf(q'[j].address, size);
    }
    AskedKept(size, q, q', forwarded);
  }

  lemma AskedMore(size: nat, cfg: Config, q: seq<Mshr>, l: W.TagLookup, now: nat, forwarded: seq<Forward>)
    requires size >= 1 && Asked(size, q, forwarded)
    ensures Asked(size, q, forwarded + [ForwardOf(cfg, l)])
    ensures ForwardOf(cfg, l).responseRequested ==> Asked(size, q + [W.Register(l, now)], forwarded + [ForwardOf(cfg, l)])
  {
    hide BlockOf;
    var f' := forwarded + [ForwardOf(cfg, l)];
    forall i | 0 <= i < |q| ensures AskedFor(size, q[i], f') {
      assert AskedFor(size, q[i], forwarded);
      var j :| 0 <= j < |forwarded| && forwarded[j].responseRequested && BlockOf(forwarded[j].address, size) == BlockOf(q[i].address, size);
      assert f'[j] == forwarded[j];
    }
    if ForwardOf(cfg, l).responseRequested {
      assert f'[|forwarded|].responseRequested && BlockOf(f'[|forwarded|].address, size) == BlockOf(W.Register(l, now).address, size);
    }
  }

  // ---- the steps of a cycle ----------------------------------------------------------------

  /** The sets after the first `n` registers of `q` were filled into `ways`. */
  ghost function FillAll(g: Shape, ws: Ways, q: seq<Mshr>, ways: seq<nat>, n: nat): (ws': Ways)
    requires Shaped(g, ws) && n <= |q| && n <= |ways|
    ensures Shaped(g, ws')
  {
    if n == 0 then ws else Filled(g, FillAll(g, ws, q, ways, n - 1), ways[n - 1], q[n - 1])
  }

  /** The dirty blocks that these fills write back. */
  ghost function WrittenBack(g: Shape, ws: Ways, q: seq<Mshr>, ways: seq<nat>, n: nat): seq<nat>
    requires Shaped(g, ws) && n <= |q| && n <= |ways|
  {
    if n == 0 then []
    else WrittenBack(g, ws, q, ways, n - 1) + Listed(Evicts(g, FillAll(g, ws, q, ways, n - 1), g.SetOf(q[n - 1].address), ways[n - 1]))
  }

  ghost predicate Victims(g: Shape, ws: Ways, q: seq<Mshr>, ways: seq<nat>, n: nat)
    requires Shaped(g, ws) && n <= |q| && n <= |ways|
  {
    forall i :: 0 <= i < n ==> VictimAt(g, FillAll(g, ws, q, ways, i), ways[i], q[i])
  }

  ghost predicate VictimAt(g: Shape, ws: Ways, way: nat, m: Mshr)
    requires Shaped(g, ws)
  {
    IsVictim(g, ws[g.SetOf(m.address)], way, m.kind)
  }

  /** The registers that are ready are filled in order, within the width; only one whose
      write-back may be refused stops this. */
  ghost predicate FilledUp(g: Shape, ws: Ways, q: seq<Mshr>, ways: seq<nat>, width: nat, now: nat, ws': Ways) {
    && Shaped(g, ws) && |ways| <= ReadySpan(q, width, now)
    && Victims(g, ws, q, ways, |ways|) && ws' == FillAll(g, ws, q, ways, |ways|)
    && (|ways| < ReadySpan(q, width, now) ==> Blocked(g, ws', q[|ways|]))
  }

  lemma {:induction false} FillPrefix(g: Shape, ws: Ways, q: seq<Mshr>, ways: seq<nat>, ways': seq<nat>, n: nat)
    requires Shaped(g, ws) && n <= |q| && n <= |ways| && ways <= ways'
    ensures FillAll(g, ws, q, ways', n) == FillAll(g, ws, q, ways, n)
    ensures WrittenBack(g, ws, q, ways', n) == WrittenBack(g, ws, q, ways, n)
  {
    if n > 0 {
      FillPrefix(g, ws, q, ways, ways', n - 1);
    }
  }

  /** The sets and what was written back, once the first `|ways|` registers were filled. */
  ghost predicate FilledSoFar(g: Shape, ws: Ways, back: seq<nat>, q: seq<Mshr>, ways: seq<nat>, ws': Ways, back': seq<nat>) {
    && Shaped(g, ws) && |ways| <= |q|
    && Victims(g, ws, q, ways, |ways|) && ws' == FillAll(g, ws, q, ways, |ways|)
    && back' == back + WrittenBack(g, ws, q, ways, |ways|)
  }

  lemma FillStart(g: Shape, ws: Ways, back: seq<nat>, q: seq<Mshr>)
    requires Shaped(g, ws)
    ensures FilledSoFar(g, ws, back, q, [], ws, back)
  {
  }

  lemma FillNext(g: Shape, ws: Ways, back: seq<nat>, q: seq<Mshr>, ways: seq<nat>, ws': Ways, back': seq<nat>, way: nat)
    requires FilledSoFar(g, ws, back, q, ways, ws', back') && |ways| < |q| && VictimAt(g, ws', way, q[|ways|])
    ensures FilledSoFar(g, ws, back, q, ways + [way], Filled(g, ws', way, q[|ways|]),
                        back' + Listed(Evicts(g, ws', g.SetOf(q[|ways|].address), way)))
  {
    hide Filled, Evicts, BlockOf, VictimAt, Listed;
    var n, ways' := |ways|, ways + [way];
    FillPrefix(g, ws, q, ways, ways', n);
    assert FillAll(g, ws, q, ways', n + 1) == Filled(g, ws', way, q[n]);
    VictimsKept(g, ws, q, ways, ways', n);
  }

  lemma VictimsKept(g: Shape, ws: Ways, q: seq<Mshr>, ways: seq<nat>, ways': seq<nat>, n: nat)
    requires Shaped(g, ws) && n <= |q| && n <= |ways| && ways <= ways' && Victims(g, ws, q, ways, n)
    ensures Victims(g, ws, q, ways', n)
  {
    hide VictimAt, FillAll;
    forall i | 0 <= i < n ensures VictimAt(g, FillAll(g, ws, q, ways', i), ways'[i], q[i]) {
      FillPrefix(g, ws, q, ways, ways', i);
    }
  }

  lemma FillStop(g: Shape, ws: Ways, back: seq<nat>, q: seq<Mshr>, ways: seq<nat>, ws': Ways, back': seq<nat>, width: nat, now: nat)
    requires FilledSoFar(g, ws, back, q, ways, ws', back') && |ways| <= ReadySpan(q, width, now)
    requires |ways| < ReadySpan(q, width, now) ==> Blocked(g, ws', q[|ways|])
    ensures FilledUp(g, ws, q, ways, width, now, ws') && Shaped(g, ws') && back' == back + WrittenBack(g, ws, q, ways, |ways|)
    ensures forall i :: 0 <= i < |ways| ==> IsReady(q[i], now)
  {
  }

  /** A filled block is in its way with the marks of its register, unless a later fill took the
      way. */
  lemma {:induction false} FillHolds(g: Shape, ws: Ways, q: seq<Mshr>, ways: seq<nat>, n: nat, i: nat)
    requires Shaped(g, ws) && n <= |q| && n <= |ways| && i < n && ways[i] < g.ways
    requires forall j :: i < j < n ==> g.SetOf(q[j].address) != g.SetOf(q[i].address) || ways[j] != ways[i]
    ensures var way := FillAll(g, ws, q, ways, n)[g.SetOf(q[i].address)][ways[i]];
      && way.valid && way.address == q[i].address && (way.dirty <==> q[i].kind == Write)
      && (way.prefetch <==> q[i].prefetchFromThis)
  {
    hide BlockOf;
    if i == n - 1 {
      var before := FillAll(g, ws, q, ways, n - 1);
      PutAt(g, before, g.SetOf(q[i].address), ways[i], FillBlock(q[i]), g.SetOf(q[i].address), ways[i]);
    } else {
      FillHolds(g, ws, q, ways, n - 1, i);
      FilledAt(g, FillAll(g, ws, q, ways, n - 1), ways[n - 1], q[n - 1], g.SetOf(q[i].address), ways[i]);
    }
  }

  /** Ways that are not filled are as before. */
  lemma {:induction false} FillKeeps(g: Shape, ws: Ways, q: seq<Mshr>, ways: seq<nat>, n: nat, s: nat, w: nat)
    requires Shaped(g, ws) && n <= |q| && n <= |ways| && s < g.sets && w < g.ways
    requires forall i :: 0 <= i < n ==> g.SetOf(q[i].address) != s || ways[i] != w
    ensures FillAll(g, ws, q, ways, n)[s][w] == ws[s][w]
  {
    hide BlockOf;
    if n > 0 {
      FillKeeps(g, ws, q, ways, n - 1, s, w);
      FilledAt(g, FillAll(g, ws, q, ways, n - 1), ways[n - 1], q[n - 1], s, w);
    }
  }

  lemma FilledAt(g: Shape, ws: Ways, way: nat, m: Mshr, s: nat, w: nat)
    requires Shaped(g, ws) && s < g.sets && w < g.ways && (g.SetOf(m.address) != s || way != w)
    ensures Filled(g, ws, way, m)[s][w] == ws[s][w]
  {
    hide BlockOf;
    if way < g.ways {
      PutAt(g, ws, g.SetOf(m.address), way, FillBlock(m), s, w);
    }
  }

  /** Only a set without invalid ways, one of them dirty, can stop a fill. */
  lemma BlockedIff(g: Shape, ws: Ways, m: Mshr)
    requires Shaped(g, ws)
    ensures Blocked(g, ws, m) <==>
      (forall w :: 0 <= w < g.ways ==> ws[g.SetOf(m.address)][w].valid)
      && exists w :: 0 <= w < g.ways && ws[g.SetOf(m.address)][w].dirty
  {
    hide BlockOf;
    var row := ws[g.SetOf(m.address)];
    if (forall w :: 0 <= w < g.ways ==> row[w].valid) && exists w :: 0 <= w < g.ways && row[w].dirty {
      var w :| 0 <= w < g.ways && row[w].dirty;
      assert IsVictim(g, row, w, m.kind) && Evicts(g, ws, g.SetOf(m.address), w) != None;
    }
  }

  /** If no way is dirty and nothing that is filled is written, every ready register is filled. */
  lemma CleanFillsAll(g: Shape, ws: Ways, q: seq<Mshr>, ways: seq<nat>, width: nat, now: nat, ws': Ways)
    requires FilledUp(g, ws, q, ways, width, now, ws')
    requires forall s, w :: 0 <= s < g.sets && 0 <= w < g.ways ==> !ws[s][w].dirty
    requires forall i :: 0 <= i < |q| && IsReady(q[i], now) ==> q[i].kind != Write
    ensures |ways| == ReadySpan(q, width, now)
  {
    var n := |ways|;
    if n < ReadySpan(q, width, now) {
      BlockedIff(g, ws', q[n]);
      var s := g.SetOf(q[n].address);
      var w :| 0 <= w < g.ways && ws'[s][w].dirty;
      StaysClean(g, ws, q, ways, n, s, w);
    }
  }

  lemma {:induction false} StaysClean(g: Shape, ws: Ways, q: seq<Mshr>, ways: seq<nat>, n: nat, s: nat, w: nat)
    requires Shaped(g, ws) && n <= |q| && n <= |ways| && s < g.sets && w < g.ways
    requires !ws[s][w].dirty && forall i :: 0 <= i < n ==> q[i].kind != Write
    ensures !FillAll(g, ws, q, ways, n)[s][w].dirty
  {
    hide BlockOf;
    if n > 0 {
      StaysClean(g, ws, q, ways, n - 1, s, w);
    }
  }

  // ---- tag checks ---------------------------------------------------------------------------

  /** The block is in a way of its set. */
  ghost predicate Present(g: Shape, ws: Ways, address: nat)
    requires Shaped(g, ws)
  {
    exists w :: 0 <= w < g.ways && Holds(g, ws[g.SetOf(address)][w], address)
  }

  /** The lookups of `ls` whose block is not there, in order. */
  ghost function MissesOf(g: Shape, ws: Ways, ls: seq<W.TagLookup>): seq<W.TagLookup>
    requires Shaped(g, ws)
  {
    if ls == [] then []
    else MissesOf(g, ws, ls[..|ls| - 1]) + if Present(g, ws, ls[|ls| - 1].address) then [] else [ls[|ls| - 1]]
  }

  /** The replies to those whose block is there. */
  ghost function HitReplies(g: Shape, ws: Ways, ls: seq<W.TagLookup>): seq<W.Reply>
    requires Shaped(g, ws)
  {
    if ls == [] then []
    else
      var l := ls[|ls| - 1];
      HitReplies(g, ws, ls[..|ls| - 1]) + if Present(g, ws, l.address) then [W.Reply(l.address, l.deps, l.toReturn)] else []
  }

  /** The sets between the lookups. */
  ghost predicate LookedAll(g: Shape, states: seq<Ways>, ls: seq<W.TagLookup>) {
    && |states| == |ls| + 1
    && (forall i :: 0 <= i <= |ls| ==> Shaped(g, states[i]))
    && forall i :: 0 <= i < |ls| ==> Looked(g, states[i], states[i + 1], ls[i], Present(g, states[i], ls[i].address))
  }

  /** A hit marks the way that held the block, and no other. */
  lemma HitMarks(g: Shape, ws: Ways, ws': Ways, l: W.TagLookup, w: nat)
    requires Shaped(g, ws) && Looked(g, ws, ws', l, true) && w < g.ways && HitsAt(g, ws, l, w)
    ensures Shaped(g, ws')
    ensures var s := g.SetOf(l.address);
      && ws'[s][w].valid && ws'[s][w].address == ws[s][w].address
      && (ws'[s][w].dirty <==> ws[s][w].dirty || l.kind == Write)
      && (ws'[s][w].prefetch <==> ws[s][w].prefetch && l.prefetchFromThis)
      && (forall t, v :: 0 <= t < g.sets && 0 <= v < g.ways && (t != s || v != w) ==> ws'[t][v] == ws[t][v])
  {
    hide BlockOf;
    var v :| 0 <= v < g.ways && HitsAt(g, ws, l, v) && ws' == Put(g, ws, g.SetOf(l.address), v, Touched(ws[g.SetOf(l.address)][v], l));
    assert v == w;
  }

  /** Looking up moves no block. */
  lemma LookedPresent(g: Shape, ws: Ways, ws': Ways, l: W.TagLookup, hit: bool, address: nat)
    requires Shaped(g, ws) && Looked(g, ws, ws', l, hit)
    ensures Shaped(g, ws') && (Present(g, ws', address) <==> Present(g, ws, address))
    ensures hit == Present(g, ws, l.address)
  {
    hide BlockOf;
    if hit {
      var s := g.SetOf(l.address);
      var w :| 0 <= w < g.ways && HitsAt(g, ws, l, w) && ws' == Put(g, ws, s, w, Touched(ws[s][w], l));
      assert forall t, v :: 0 <= t < g.sets && 0 <= v < g.ways ==> Holds(g, ws'[t][v], address) == Holds(g, ws[t][v], address);
    }
  }

  ghost predicate SamePresence(g: Shape, ws: Ways, ws': Ways)
    requires Shaped(g, ws) && Shaped(g, ws')
  {
    forall address: nat :: Present(g, ws', address) <==> Present(g, ws, address)
  }

  /** Looking up the next request. */
  lemma LookNext(g: Shape, states: seq<Ways>, ls: seq<W.TagLookup>, i: nat, ws': Ways, hit: bool)
    requires i < |ls| && LookedAll(g, states, ls[..i]) && SamePresence(g, states[0], states[i])
    requires Looked(g, states[i], ws', ls[i], hit)
    ensures LookedAll(g, states + [ws'], ls[..i + 1]) && SamePresence(g, states[0], ws') && hit == Present(g, states[0], ls[i].address)
    ensures MissesOf(g, states[0], ls[..i + 1]) == MissesOf(g, states[0], ls[..i]) + if hit then [] else [ls[i]]
    ensures HitReplies(g, states[0], ls[..i + 1])
         == HitReplies(g, states[0], ls[..i]) + if hit then [W.Reply(ls[i].address, ls[i].deps, ls[i].toReturn)] else []
  {
    hide Looked, Present;
    forall address: nat ensures Shaped(g, ws') && (Present(g, ws', address) <==> Present(g, states[0], address)) {
      LookedPresent(g, states[i], ws', ls[i], hit, address);
    }
    LookedPresent(g, states[i], ws', ls[i], hit, ls[i].address);
    assert ls[..i + 1][..i] == ls[..i];
  }

  lemma LookStart(g: Shape, ws: Ways, ls: seq<W.TagLookup>)
    requires Shaped(g, ws)
    ensures LookedAll(g, [ws], ls[..0]) && SamePresence(g, ws, ws)
    ensures MissesOf(g, ws, ls[..0]) == [] && HitReplies(g, ws, ls[..0]) == []
  {
  }

  /** What handling a miss changes. */
  datatype MissView = MissView(mshr: seq<Mshr>, writes: seq<Mshr>, forwarded: seq<Forward>)

  /** A miss of `l`: a write to a cache of whole blocks waits like a returned fill; others join,
      ask below, or fail. */
  ghost predicate MissHandled(size: nat, cfg: Config, v: MissView, v': MissView, l: W.TagLookup, now: nat, time: nat, done: bool)
    requires size >= 1
  {
    if l.kind == Write && !cfg.matchOffset then
      done && v' == v.(writes := v.writes + [W.Register(l, now).(returned := Some(time))])
    else
      && Missed(size, cfg, v.mshr, v'.mshr, l, now, done) && v'.writes == v.writes
      && v'.forwarded == v.forwarded + if done && !Joins(size, v.mshr, l.address) then [ForwardOf(cfg, l)] else []
  }

  ghost predicate MissesHandled(size: nat, cfg: Config, vs: seq<MissView>, misses: seq<W.TagLookup>, now: nat, time: nat, dones: seq<bool>)
    requires size >= 1
  {
    && |vs| == |misses| + 1 && |dones| == |misses|
    && forall i :: 0 <= i < |misses| ==> MissHandled(size, cfg, vs[i], vs[i + 1], misses[i], now, time, dones[i])
  }

  /** The misses that failed, in order. */
  ghost function Failed(misses: seq<W.TagLookup>, dones: seq<bool>): seq<W.TagLookup>
    requires |dones| == |misses|
  {
    if misses == [] then []
    else Failed(misses[..|misses| - 1], dones[..|misses| - 1]) + if dones[|misses| - 1] then [] else [misses[|misses| - 1]]
  }

  lemma MissNext(size: nat, cfg: Config, vs: seq<MissView>, misses: seq<W.TagLookup>, i: nat, now: nat, time: nat, dones: seq<bool>,
                 v': MissView, done: bool)
    requires size >= 1 && i < |misses| && MissesHandled(size, cfg, vs, misses[..i], now, time, dones)
    requires MissHandled(size, cfg, vs[i], v', misses[i], now, time, done)
    ensures MissesHandled(size, cfg, vs + [v'], misses[..i + 1], now, time, dones + [done])
    ensures Failed(misses[..i + 1], dones + [done]) == Failed(misses[..i], dones) + if done then [] else [misses[i]]
  {
    hide MissHandled;
    assert misses[..i + 1][..i] == misses[..i] && (dones + [done])[..i] == dones;
  }

  lemma MissStart(size: nat, cfg: Config, v: MissView, misses: seq<W.TagLookup>, now: nat, time: nat)
    requires size >= 1
    ensures MissesHandled(size, cfg, [v], misses[..0], now, time, []) && Failed(misses[..0], []) == []
  {
  }

  /** The record of the tag checks of a cycle. */
  datatype TagTrace = TagTrace(states: seq<Ways>, misses: seq<W.TagLookup>, vs: seq<MissView>, dones: seq<bool>)

  /** The due lookups leave: hits are answered, misses handled in order; those that fail stay in
      front of the others. */
  ghost predicate TagsChecked(g: Shape, cfg: Config, now: nat, time: nat, ls: seq<W.TagLookup>, c: TagTrace, ls': seq<W.TagLookup>) {
    && g.Valid() && c.states != [] && Shaped(g, c.states[0])
    && var due := ls[..DueSpan(ls, cfg.maxTag, now)];
      && LookedAll(g, c.states, due) && c.misses == MissesOf(g, c.states[0], due)
      && MissesHandled(g.blockSize, cfg, c.vs, c.misses, now, time, c.dones)
      && ls' == Failed(c.misses, c.dones) + ls[DueSpan(ls, cfg.maxTag, now)..]
  }

  // ---- a whole cycle ------------------------------------------------------------------------

  datatype CacheView = CacheView(ways: Ways, mshr: seq<Mshr>, writes: seq<Mshr>, lookups: seq<W.TagLookup>, replies: seq<W.Reply>,
                                 written: seq<nat>, forwarded: seq<Forward>)

  /** Each response readies its register in turn. */
  ghost predicate ReturnsDone(size: nat, qs: seq<seq<Mshr>>, responses: seq<nat>, k: nat, time: nat)
    requires size >= 1
  {
    && |qs| == |responses| + 1
    && forall i :: 0 <= i < |responses| ==> Returned(size, qs[i], qs[i + 1], responses[i], k + i, time)
  }

  /** The registers between the returns, the filled ways and the sets between the two kinds of
      fills, and the tag checks. */
  datatype CacheTrace = CacheTrace(qs: seq<seq<Mshr>>, missWays: seq<nat>, mid: Ways, storeWays: seq<nat>, tags: TagTrace)

  function Timed(ls: seq<W.TagLookup>, event: nat): (r: seq<W.TagLookup>)
    ensures |r| == |ls| && forall i :: 0 <= i < |ls| ==> r[i] == ls[i].(event := event)
  {
    seq(|ls|, i requires 0 <= i < |ls| => ls[i].(event := event))
  }

  /** One cycle from `v` to `v'`: responses, fills of misses and then of writes, new lookups, tag
      checks. `k` registers had returned before. */
  ghost predicate CacheCycle(g: Shape, cfg: Config, now: nat, latency: nat, hitLatency: nat, k: nat, v: CacheView, responses: seq<nat>,
                             arriving: seq<W.TagLookup>, c: CacheTrace, v': CacheView) {
    && g.Valid() && Shaped(g, v.ways) && Shaped(g, c.mid)
    && ReturnsDone(g.blockSize, c.qs, responses, k, now + latency) && c.qs[0] == v.mshr
    && var q := c.qs[|responses|];
      && FilledUp(g, v.ways, q, c.missWays, cfg.maxFill, now, c.mid)
      && |c.missWays| <= cfg.maxFill && c.tags.states != [] && c.tags.vs != []
      && FilledUp(g, c.mid, v.writes, c.storeWays, cfg.maxFill - |c.missWays|, now, c.tags.states[0])
      && c.tags.vs[0] == MissView(q[|c.missWays|..], v.writes[|c.storeWays|..], v.forwarded)
      && TagsChecked(g, cfg, now, now + latency, v.lookups + Timed(arriving, now + hitLatency), c.tags, v'.lookups)
      && v'.ways == c.tags.states[|c.tags.states| - 1]
      && MissView(v'.mshr, v'.writes, v'.forwarded) == c.tags.vs[|c.tags.vs| - 1]
      && v'.written == v.written + WrittenBack(g, v.ways, q, c.missWays, |c.missWays|)
        + WrittenBack(g, c.mid, v.writes, c.storeWays, |c.storeWays|)
      && var ls := v.lookups + Timed(arriving, now + hitLatency);
        v'.replies == v.replies + RepliesTo(q, |c.missWays|) + RepliesTo(v.writes, |c.storeWays|)
          + HitReplies(g, c.tags.states[0], ls[..DueSpan(ls, cfg.maxTag, now)])
  }

  // ---- what a cycle achieves ----------------------------------------------------------------

  lemma {:induction false} RepliesAt(q: seq<Mshr>, n: nat)
    requires n <= |q|
    ensures |RepliesTo(q, n)| == n && forall i :: 0 <= i < n ==> RepliesTo(q, n)[i] == W.ReplyTo(q[i])
  {
    if n > 0 {
      RepliesAt(q, n - 1);
    }
  }

  /** When no way is dirty and no miss that is ready is a write, every register that is ready
      within the fill width leaves in this cycle, its waiters answered. */
  lemma CycleFills(g: Shape, cfg: Config, now: nat, latency: nat, hitLatency: nat, k: nat, v: CacheView, responses: seq<nat>,
                   arriving: seq<W.TagLookup>, c: CacheTrace, v': CacheView)
    requires CacheCycle(g, cfg, now, latency, hitLatency, k, v, responses, arriving, c, v')
    requires forall s, w :: 0 <= s < g.sets && 0 <= w < g.ways ==> !v.ways[s][w].dirty
    requires forall i :: 0 <= i < |c.qs[|responses|]| && IsReady(c.qs[|responses|][i], now) ==> c.qs[|responses|][i].kind != Write
    ensures |c.missWays| == ReadySpan(c.qs[|responses|], cfg.maxFill, now)
    ensures c.tags.vs[0].mshr == c.qs[|responses|][ReadySpan(c.qs[|responses|], cfg.maxFill, now)..]
    ensures forall i :: 0 <= i < ReadySpan(c.qs[|responses|], cfg.maxFill, now) ==>
      |v.replies| + i < |v'.replies| && v'.replies[|v.replies| + i] == W.ReplyTo(c.qs[|responses|][i])
  {
    hide ReadySpan, TagsChecked, Returned, WrittenBack, HitReplies, FilledUp, IsReady;
    var q := c.qs[|responses|];
    CleanFillsAll(g, v.ways, q, c.missWays, cfg.maxFill, now, c.mid);
    RepliesAt(q, |c.missWays|);
  }

  lemma {:induction false} Replied(g: Shape, ws: Ways, ls: seq<W.TagLookup>, l: W.TagLookup)
    requires Shaped(g, ws) && l in ls
    ensures Present(g, ws, l.address) ==> W.Reply(l.address, l.deps, l.toReturn) in HitReplies(g, ws, ls)
    ensures !Present(g, ws, l.address) ==> l in MissesOf(g, ws, ls)
  {
    if l != ls[|ls| - 1] {
      Replied(g, ws, ls[..|ls| - 1], l);
    }
  }

  /** A lookup that is due when the fills are done: if its block is there, it is answered in this
      cycle; otherwise it is handled as a miss. */
  lemma CycleLooks(g: Shape, cfg: Config, now: nat, latency: nat, hitLatency: nat, k: nat, v: CacheView, responses: seq<nat>,
                   arriving: seq<W.TagLookup>, c: CacheTrace, v': CacheView, i: nat)
    requires CacheCycle(g, cfg, now, latency, hitLatency, k, v, responses, arriving, c, v')
    requires i < DueSpan(v.lookups + Timed(arriving, now + hitLatency), cfg.maxTag, now)
    ensures v.replies <= v'.replies
    ensures var l := (v.lookups + Timed(arriving, now + hitLatency))[i];
      && (Present(g, c.tags.states[0], l.address) ==> W.Reply(l.address, l.deps, l.toReturn) in v'.replies[|v.replies|..])
      && (!Present(g, c.tags.states[0], l.address) ==> l in c.tags.misses)
  {
    hide DueSpan, Returned, WrittenBack, Victims, Blocked, FillAll, Timed, LookedAll, MissesHandled, Failed;
    var ls := v.lookups + Timed(arriving, now + hitLatency);
    var due := ls[..DueSpan(ls, cfg.maxTag, now)];
    assert due[i] == ls[i];
    assert v'.replies[|v.replies|..] == RepliesTo(c.qs[|responses|], |c.missWays|) + RepliesTo(v.writes, |c.storeWays|)
      + HitReplies(g, c.tags.states[0], due);
    Replied(g, c.tags.states[0], due, ls[i]);
  }
}
