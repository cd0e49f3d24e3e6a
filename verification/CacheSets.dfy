/** The blocks that a cache holds, and when a block may be held only once. */
module CacheSets {
  import opened Prelude
  import opened MissStatus

  /** One way of one set. */
  datatype Way = Way(valid: bool, prefetch: bool, dirty: bool, address: nat)

  type Ways = seq<seq<Way>>

  datatype Shape = Shape(blockSize: nat, sets: nat, ways: nat) {
    predicate Valid() {
      blockSize >= 1 && sets >= 1
    }

    function Block(address: nat): nat
      requires Valid()
    {
      BlockOf(address, blockSize)
    }

    function SetOf(address: nat): (s: nat)
      requires Valid()
      ensures s < sets
    {
      Block(address) % sets
    }
  }

  ghost predicate Shaped(g: Shape, ws: Ways) {
    g.Valid() && |ws| == g.sets && forall s :: 0 <= s < |ws| ==> |ws[s]| == g.ways
  }

  /** Every valid way holds a block of its own set. */
  ghost predicate OwnSets(g: Shape, ws: Ways)
    requires Shaped(g, ws)
  {
    forall s, w :: 0 <= s < g.sets && 0 <= w < g.ways && ws[s][w].valid ==> g.SetOf(ws[s][w].address) == s
  }

  predicate Holds(g: Shape, way: Way, address: nat)
    requires g.Valid()
  {
    way.valid && g.Block(way.address) == g.Block(address)
  }

  /** No two valid ways of a set hold the same block. */
  ghost predicate HeldOnce(g: Shape, ws: Ways)
    requires Shaped(g, ws)
  {
    forall s, v, w :: 0 <= s < g.sets && 0 <= v < w < g.ways && ws[s][v].valid ==> !Holds(g, ws[s][w], ws[s][v].address)
  }

  /** A valid way's block is in the tag of no way before it, valid or not. */
  ghost predicate FirstTagged(g: Shape, ws: Ways)
    requires Shaped(g, ws)
  {
    forall s, v, w :: 0 <= s < g.sets && 0 <= v < w < g.ways && ws[s][w].valid ==>
      g.Block(ws[s][v].address) != g.Block(ws[s][w].address)
  }

  ghost predicate Absent(g: Shape, ws: Ways, address: nat)
    requires Shaped(g, ws)
  {
    forall s, w :: 0 <= s < g.sets && 0 <= w < g.ways ==> !Holds(g, ws[s][w], address)
  }

  /** The blocks that are waited for, from register `n` on, are not held. */
  ghost predicate NotYetHeld(g: Shape, ws: Ways, q: seq<Mshr>, n: nat)
    requires Shaped(g, ws)
  {
    forall i :: n <= i < |q| ==> Absent(g, ws, q[i].address)
  }

  ghost predicate Exclusive(g: Shape, ws: Ways, q: seq<Mshr>, n: nat)
    requires Shaped(g, ws)
  {
    HeldOnce(g, ws) && NotYetHeld(g, ws, q, n)
  }

  /** Across all ways and registers together a block occurs at most once. */
  lemma OncePerBlock(g: Shape, ws: Ways, q: seq<Mshr>, s: nat, w: nat, s': nat, w': nat, i: nat)
    requires Shaped(g, ws) && OwnSets(g, ws) && Exclusive(g, ws, q, 0)
    requires s < g.sets && s' < g.sets && w < g.ways && w' < g.ways && ws[s][w].valid && ws[s'][w'].valid
    ensures Holds(g, ws[s'][w'], ws[s][w].address) ==> s == s' && w == w'
    ensures i < |q| ==> !Holds(g, ws[s][w], q[i].address)
  {
    if Holds(g, ws[s'][w'], ws[s][w].address) {
      assert s == s';
      assert Holds(g, ws[s][w], ws[s'][w'].address);
    }
  }

  lemma SameSet(g: Shape, a: nat, b: nat)
    requires g.Valid()
    ensures g.Block(a) == g.Block(b) ==> g.SetOf(a) == g.SetOf(b)
  {
  }

  /** A block that misses in its own set is nowhere. */
  lemma MissIsAbsent(g: Shape, ws: Ways, address: nat)
    requires Shaped(g, ws) && OwnSets(g, ws)
    requires forall w :: 0 <= w < g.ways ==> !Holds(g, ws[g.SetOf(address)][w], address)
    ensures Absent(g, ws, address)
  {
    hide BlockOf;
    forall s, w | 0 <= s < g.sets && 0 <= w < g.ways ensures !Holds(g, ws[s][w], address) {
      SameSet(g, ws[s][w].address, address);
      if g.SetOf(address) == s {
        assert !Holds(g, ws[g.SetOf(address)][w], address);
      }
    }
  }

  function FillBlock(m: Mshr): Way {
    Way(true, m.prefetchFromThis, m.kind == Write, m.address)
  }

  /** One way replaced. */
  function Put(g: Shape, ws: Ways, s: nat, w: nat, way: Way): (ws': Ways)
    requires Shaped(g, ws) && s < g.sets && w < g.ways
    ensures Shaped(g, ws')
  {
    ws[s := ws[s][w := way]]
  }

  lemma PutAt(g: Shape, ws: Ways, s: nat, w: nat, way: Way, s': nat, w': nat)
    requires Shaped(g, ws) && s < g.sets && w < g.ways && s' < g.sets && w' < g.ways
    ensures Put(g, ws, s, w, way)[s'][w'] == if s' == s && w' == w then way else ws[s'][w']
  {
  }

  lemma FillOwnSets(g: Shape, ws: Ways, w: nat, way: Way)
    requires Shaped(g, ws) && OwnSets(g, ws) && w < g.ways
    ensures OwnSets(g, Put(g, ws, g.SetOf(way.address), w, way))
  {
    hide BlockOf;
  }

  /** Filling register `n`, which is not held yet, into any way of its set. */
  lemma FillExclusive(g: Shape, ws: Ways, q: seq<Mshr>, n: nat, w: nat)
    requires Shaped(g, ws) && Exclusive(g, ws, q, n) && n < |q| && w < g.ways && DistinctBlocks(q, g.blockSize)
    ensures Exclusive(g, Put(g, ws, g.SetOf(q[n].address), w, FillBlock(q[n])), q, n + 1)
  {
    var s, way := g.SetOf(q[n].address), FillBlock(q[n]);
    hide BlockOf;
    var ws' := Put(g, ws, s, w, way);
    assert Absent(g, ws, q[n].address);
    forall i | n + 1 <= i < |q| ensures Absent(g, ws', q[i].address) {
      assert Absent(g, ws, q[i].address);
    }
  }

  /** Filling a way with only valid ones before it leaves no stale tag in front of the block. */
  lemma FillFirstTagged(g: Shape, ws: Ways, w: nat, way: Way)
    requires Shaped(g, ws) && FirstTagged(g, ws) && w < g.ways && Absent(g, ws, way.address)
    requires forall v :: 0 <= v < w ==> ws[g.SetOf(way.address)][v].valid
    ensures FirstTagged(g, Put(g, ws, g.SetOf(way.address), w, way))
  {
    hide BlockOf;
    var s := g.SetOf(way.address);
    assert forall v :: 0 <= v < g.ways ==> !Holds(g, ws[s][v], way.address);
  }

  /** Invalidating the first way that is tagged with the block, which is the `w`-th if any is:
      the block is gone exactly when no valid copy was behind that way. */
  lemma InvalidateStep(g: Shape, ws: Ways, w: nat, address: nat)
    requires Shaped(g, ws) && OwnSets(g, ws) && w <= g.ways
    requires w < g.ways ==> g.Block(ws[g.SetOf(address)][w].address) == g.Block(address)
    requires forall v :: 0 <= v < w ==> g.Block(ws[g.SetOf(address)][v].address) != g.Block(address)
    ensures Absent(g, Invalidated(g, ws, g.SetOf(address), w), address)
      <==> forall v :: w < v < g.ways ==> !Holds(g, ws[g.SetOf(address)][v], address)
    ensures FirstTagged(g, ws) ==> Absent(g, Invalidated(g, ws, g.SetOf(address), w), address)
  {
    hide BlockOf;
    var s, ws' := g.SetOf(address), Invalidated(g, ws, g.SetOf(address), w);
    if forall v :: w < v < g.ways ==> !Holds(g, ws[s][v], address) {
      MissIsAbsent(g, ws', address);
    } else {
      var v :| w < v < g.ways && Holds(g, ws[s][v], address);
      assert Holds(g, ws'[s][v], address);
    }
  }

  function Invalidated(g: Shape, ws: Ways, s: nat, w: nat): (ws': Ways)
    requires Shaped(g, ws) && s < g.sets
    ensures Shaped(g, ws')
  {
    if w < g.ways then Put(g, ws, s, w, ws[s][w].(valid := false)) else ws
  }

  /** Changing flags moves no block. */
  ghost predicate SameBlocks(g: Shape, ws: Ways, ws': Ways)
    requires Shaped(g, ws) && Shaped(g, ws')
  {
    forall s, w :: 0 <= s < g.sets && 0 <= w < g.ways ==>
      ws'[s][w].address == ws[s][w].address && (ws'[s][w].valid ==> ws[s][w].valid)
  }

  lemma FlagStep(g: Shape, ws: Ways, ws': Ways, q: seq<Mshr>, n: nat)
    requires Shaped(g, ws) && Shaped(g, ws') && SameBlocks(g, ws, ws')
    ensures OwnSets(g, ws) ==> OwnSets(g, ws')
    ensures Exclusive(g, ws, q, n) ==> Exclusive(g, ws', q, n)
    ensures FirstTagged(g, ws) ==> FirstTagged(g, ws')
    ensures forall a :: Absent(g, ws, a) ==> Absent(g, ws', a)
  {
    hide BlockOf;
    if Exclusive(g, ws, q, n) {
      forall i | n <= i < |q| ensures Absent(g, ws', q[i].address) {
        assert Absent(g, ws, q[i].address);
      }
    }
  }

  /** The registers may change as long as they wait for the same blocks, or for absent ones. */
  lemma RegistersStep(g: Shape, ws: Ways, q: seq<Mshr>, q': seq<Mshr>, n: nat)
    requires Shaped(g, ws) && Exclusive(g, ws, q, n)
    requires forall i :: n <= i < |q'| ==>
      Absent(g, ws, q'[i].address) || exists j :: n <= j < |q| && g.Block(q[j].address) == g.Block(q'[i].address)
    ensures Exclusive(g, ws, q', n)
  {
    hide BlockOf;
  }
}
