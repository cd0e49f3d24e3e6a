/** The set-associative table with least-recently-used replacement, proved to behave, set by
    set, like a bounded list kept in order of use. */
module RecencyTable {
  import opened Prelude
  import opened Grids

  /** A stored element with the projections that place it. */
  datatype Element = Element(index: int, tag: nat, data: nat)

  /** A way; it is valid once it has been used. */
  datatype Block = Block(lastUsed: nat, elem: Element)

  const EMPTY: Block := Block(0, Element(0, 0, 0))

  // ---- the list --------------------------------------------------------------------------

  /** Where the tag is in the list, or the list's length. */
  function Find(l: seq<Element>, tag: nat): (k: nat)
    ensures k <= |l| && (k < |l| ==> l[k].tag == tag)
    ensures forall j :: 0 <= j < k ==> l[j].tag != tag
  {
    if l == [] || l[0].tag == tag then 0 else 1 + Find(l[1..], tag)
  }

  function Without<T>(l: seq<T>, k: nat): (r: seq<T>)
    requires k < |l|
    ensures |r| == |l| - 1 && forall j {:trigger r[j]} :: 0 <= j < |r| ==> r[j] == if j < k then l[j] else l[j + 1]
  {
    l[..k] + l[k + 1..]
  }

  /** A hit moves the element to the front. */
  function Touched(l: seq<Element>, tag: nat): seq<Element> {
    var k := Find(l, tag);
    if k < |l| then [l[k]] + Without<Element>(l, k) else l
  }

  /** The new element goes to the front; it replaces its namesake, or, in a full list, the
      element used longest ago. */
  function Filled(l: seq<Element>, e: Element, ways: nat): seq<Element> {
    var k := Find(l, e.tag);
    if ways == 0 then l
    else if k < |l| then [e] + Without<Element>(l, k)
    else [e] + if |l| >= ways then l[..ways - 1] else l
  }

  function Removed(l: seq<Element>, tag: nat): seq<Element> {
    var k := Find(l, tag);
    if k < |l| then Without<Element>(l, k) else l
  }

  function Hit(l: seq<Element>, tag: nat): Option<Element> {
    var k := Find(l, tag);
    if k < |l| then Some(l[k]) else None
  }

  ghost predicate DistinctTags(l: seq<Element>) {
    forall j, k :: 0 <= j < k < |l| ==> l[j].tag != l[k].tag
  }

  lemma FindIs(l: seq<Element>, tag: nat, k: nat)
    requires DistinctTags(l) && k < |l| && l[k].tag == tag
    ensures Find(l, tag) == k
  {
  }

  /** A fill keeps tags distinct and the list within bounds, and the new element is found. */
  lemma FillThenHit(l: seq<Element>, e: Element, ways: nat)
    requires DistinctTags(l) && |l| <= ways && ways > 0
    ensures var l' := Filled(l, e, ways); DistinctTags(l') && |l'| <= ways && Hit(l', e.tag) == Some(e)
  {
    FindIs(Filled(l, e, ways), e.tag, 0);
  }

  /** Every other element is still found, except the one used longest ago when a new tag came
      to a full set. */
  lemma FillKeeps(l: seq<Element>, e: Element, ways: nat, tag: nat)
    requires DistinctTags(l) && |l| <= ways && ways > 0 && tag != e.tag
    ensures Hit(Filled(l, e, ways), tag) ==
      if Hit(l, e.tag) == None && |l| == ways && tag == l[ways - 1].tag then None else Hit(l, tag)
  {
    FillThenHit(l, e, ways);
    var k, j := Find(l, e.tag), Find(l, tag);
    if j < |l| && !(k == |l| == ways && j == ways - 1) {
      FindIs(Filled(l, e, ways), tag, if j < k then j + 1 else j);
    }
  }

  // ---- the list over a run -----------------------------------------------------------------

  /** After a hit the element is in front, and all others keep their order behind it. */
  lemma TouchMoves(l: seq<Element>, tag: nat, other: nat)
    requires DistinctTags(l) && Find(l, tag) < |l|
    ensures |Touched(l, tag)| == |l| && DistinctTags(Touched(l, tag)) && Touched(l, tag)[0] == l[Find(l, tag)]
    ensures Hit(Touched(l, tag), other) == Hit(l, other)
    ensures Find(Touched(l, tag), other) ==
      if other == tag then 0 else if Find(l, other) < Find(l, tag) then Find(l, other) + 1 else Find(l, other)
  {
    var k, j, l' := Find(l, tag), Find(l, other), Touched(l, tag);
    FindIs(l', tag, 0);
    if j < |l| {
      FindIs(l', other, if j == k then 0 else if j < k then j + 1 else j);
    } else {
      FindNone(l', other);
    }
  }

  lemma FindNone(l: seq<Element>, tag: nat)
    requires forall k :: 0 <= k < |l| ==> l[k].tag != tag
    ensures Find(l, tag) == |l|
  {
  }

  /** A call on one set. */
  datatype Call = Check(tag: nat) | Store(e: Element) | Drop(tag: nat)

  function After(l: seq<Element>, c: Call, ways: nat): seq<Element> {
    match c
    case Check(tag) => Touched(l, tag)
    case Store(e) => Filled(l, e, ways)
    case Drop(tag) => Removed(l, tag)
  }

  function Run(calls: seq<Call>, ways: nat): seq<Element> {
    if calls == [] then [] else After(Run(calls[..|calls| - 1], ways), calls[|calls| - 1], ways)
  }

  /** The call asks for the tag or stores it. */
  predicate Uses(c: Call, tag: nat) {
    (c.Check? && c.tag == tag) || (c.Store? && c.e.tag == tag)
  }

  /** When the tag was used last, counted from one; zero if never. */
  function LastUse(calls: seq<Call>, tag: nat): (t: nat)
    ensures t <= |calls| && (t > 0 ==> Uses(calls[t - 1], tag)) && forall i :: t <= i < |calls| ==> !Uses(calls[i], tag)
  {
    if calls == [] then 0
    else if Uses(calls[|calls| - 1], tag) then |calls|
    else LastUse(calls[..|calls| - 1], tag)
  }

  /** Last used first. */
  ghost predicate ByLastUse(l: seq<Element>, calls: seq<Call>) {
    && (forall k :: 0 <= k < |l| ==> LastUse(calls, l[k].tag) > 0)
    && forall j, k :: 0 <= j < k < |l| ==> LastUse(calls, l[j].tag) > LastUse(calls, l[k].tag)
  }

  lemma LastUseNext(calls: seq<Call>, c: Call, tag: nat)
    ensures LastUse(calls + [c], tag) == if Uses(c, tag) then |calls| + 1 else LastUse(calls, tag)
  {
    assert (calls + [c])[..|calls|] == calls;
  }

  /** The element used now goes in front of some of the others, in their old order. */
  lemma FrontByLastUse(l: seq<Element>, calls: seq<Call>, c: Call, l': seq<Element>, tag: nat)
    requires ByLastUse(l, calls) && Uses(c, tag) && l' != [] && l'[0].tag == tag
    requires forall k :: 1 <= k < |l'| ==> l'[k] in l && l'[k].tag != tag
    requires forall j, k :: 1 <= j < k < |l'| ==> LastUse(calls, l'[j].tag) > LastUse(calls, l'[k].tag)
    ensures ByLastUse(l', calls + [c])
  {
    hide LastUse;
    forall k | 0 <= k < |l'|
      ensures LastUse(calls + [c], l'[k].tag) == if k == 0 then |calls| + 1 else LastUse(calls, l'[k].tag)
      ensures k > 0 ==> 0 < LastUse(calls, l'[k].tag) <= |calls|
    {
      LastUseNext(calls, c, l'[k].tag);
      if k > 0 {
        var m :| 0 <= m < |l| && l[m] == l'[k];
      }
    }
  }

  lemma SameByLastUse(l: seq<Element>, calls: seq<Call>, c: Call, l': seq<Element>)
    requires ByLastUse(l, calls) && (forall k :: 0 <= k < |l'| ==> !Uses(c, l'[k].tag))
    requires forall k :: 0 <= k < |l'| ==> l'[k] in l
    requires forall j, k :: 0 <= j < k < |l'| ==> LastUse(calls, l'[j].tag) > LastUse(calls, l'[k].tag)
    ensures ByLastUse(l', calls + [c])
  {
    hide LastUse;
    forall k | 0 <= k < |l'| ensures LastUse(calls + [c], l'[k].tag) == LastUse(calls, l'[k].tag) > 0 {
      LastUseNext(calls, c, l'[k].tag);
    }
  }

  lemma CheckByLastUse(l: seq<Element>, calls: seq<Call>, tag: nat)
    requires ByLastUse(l, calls) && DistinctTags(l)
    ensures ByLastUse(Touched(l, tag), calls + [Check(tag)]) && DistinctTags(Touched(l, tag))
  {
    hide LastUse;
    var k, l' := Find(l, tag), Touched(l, tag);
    if k < |l| {
      forall j | 1 <= j < |l'| ensures l'[j] == l[if j - 1 < k then j - 1 else j] {
      }
      FrontByLastUse(l, calls, Check(tag), l', tag);
    } else {
      SameByLastUse(l, calls, Check(tag), l);
    }
  }

  lemma StoreByLastUse(l: seq<Element>, calls: seq<Call>, e: Element, ways: nat)
    requires ByLastUse(l, calls) && DistinctTags(l) && |l| <= ways
    ensures ByLastUse(Filled(l, e, ways), calls + [Store(e)]) && DistinctTags(Filled(l, e, ways)) && |Filled(l, e, ways)| <= ways
  {
    hide LastUse;
    var k, l' := Find(l, e.tag), Filled(l, e, ways);
    if ways > 0 {
      FillThenHit(l, e, ways);
      FilledRest(l, e, ways);
      hide Filled, Find;
      FrontByLastUse(l, calls, Store(e), l', e.tag);
    }
  }

  /** Behind the new element the others stand as before, but for its namesake or the last. */
  lemma FilledRest(l: seq<Element>, e: Element, ways: nat)
    requires DistinctTags(l) && |l| <= ways && ways > 0
    ensures var l' := Filled(l, e, ways);
      && l' != [] && l'[0] == e && |l'| <= |l| + 1
      && forall j :: 1 <= j < |l'| ==>
        (if j - 1 < Find(l, e.tag) then j - 1 else j) < |l|
        && l'[j] == l[if j - 1 < Find(l, e.tag) then j - 1 else j] && l'[j].tag != e.tag
  {
  }

  lemma DropByLastUse(l: seq<Element>, calls: seq<Call>, tag: nat)
    requires ByLastUse(l, calls) && DistinctTags(l)
    ensures ByLastUse(Removed(l, tag), calls + [Drop(tag)]) && DistinctTags(Removed(l, tag)) && |Removed(l, tag)| <= |l|
  {
    hide LastUse;
    SameByLastUse(l, calls, Drop(tag), Removed(l, tag));
  }

  /** Over any run of calls on a set: its elements are in the order of their last use, each tag
      once, and no more than there are ways. */
  lemma {:induction false} RunByLastUse(calls: seq<Call>, ways: nat)
    ensures ByLastUse(Run(calls, ways), calls) && DistinctTags(Run(calls, ways)) && |Run(calls, ways)| <= ways
  {
    if calls != [] {
      var before, c := calls[..|calls| - 1], calls[|calls| - 1];
      RunByLastUse(before, ways);
      assert calls == before + [c];
      hide Touched, Filled, Removed, ByLastUse, DistinctTags;
      match c
      case Check(tag) => CheckByLastUse(Run(before, ways), before, tag);
      case Store(e) => StoreByLastUse(Run(before, ways), before, e, ways);
      case Drop(tag) => DropByLastUse(Run(before, ways), before, tag);
    }
  }

  /** When a new tag comes to a full set, exactly the element whose last use is the oldest is
      given up. */
  lemma OldestIsGivenUp(calls: seq<Call>, ways: nat, e: Element, tag: nat)
    requires ways > 0 && |Run(calls, ways)| == ways && Hit(Run(calls, ways), e.tag) == None && Hit(Run(calls, ways), tag) != None
    ensures Hit(Run(calls + [Store(e)], ways), tag) == None <==>
      forall k :: 0 <= k < ways ==> LastUse(calls, tag) <= LastUse(calls, Run(calls, ways)[k].tag)
  {
    RunByLastUse(calls, ways);
    var l := Run(calls, ways);
    assert (calls + [Store(e)])[..|calls|] == calls;
    hide Run, LastUse, Filled;
    FillKeeps(l, e, ways, tag);
    var j := Find(l, tag);
    assert l[j].tag == tag && (l[ways - 1].tag == tag ==> j == ways - 1);
  }

  // ---- one set ---------------------------------------------------------------------------

  type Ways = seq<Block>

  predicate Matches(b: Block, tag: nat) {
    b.lastUsed > 0 && b.elem.tag == tag
  }

  /** The ways of `order` are valid, last used first. */
  ghost predicate Ranked(row: Ways, order: seq<nat>, count: nat) {
    && (forall k :: 0 <= k < |order| ==> order[k] < |row| && 0 < row[order[k]].lastUsed <= count)
    && (forall j, k :: 0 <= j < k < |order| ==> row[order[j]].lastUsed > row[order[k]].lastUsed)
  }

  ghost predicate Covering(row: Ways, order: seq<nat>) {
    forall w :: 0 <= w < |row| && row[w].lastUsed > 0 ==> w in order
  }

  ghost predicate Unique(row: Ways, order: seq<nat>)
    requires forall k :: 0 <= k < |order| ==> order[k] < |row|
  {
    forall j, k :: 0 <= j < k < |order| ==> row[order[j]].elem.tag != row[order[k]].elem.tag
  }

  /** `order` lists exactly the valid ways, last used first, and their tags differ. */
  ghost predicate Ordered(row: Ways, order: seq<nat>, count: nat) {
    Ranked(row, order, count) && Covering(row, order) && Unique(row, order)
  }

  ghost function Recency(row: Ways, order: seq<nat>): (l: seq<Element>)
    requires forall k :: 0 <= k < |order| ==> order[k] < |row|
    ensures |l| == |order| && forall k {:trigger l[k]} :: 0 <= k < |order| ==> l[k] == row[order[k]].elem
  {
    seq(|order|, k requires 0 <= k < |order| => row[order[k]].elem)
  }

  ghost function Below(n: nat): (s: set<int>)
    ensures |s| == n && forall x :: x in s <==> 0 <= x < n
  {
    if n == 0 then {} else Below(n - 1) + {n - 1}
  }

  ghost function Members(s: seq<int>): (r: set<int>)
    ensures forall x :: x in r <==> x in s
  {
    if s == [] then {} else Members(s[1..]) + {s[0]}
  }

  lemma {:induction false} SubsetSize<T>(a: set<T>, b: set<T>)
    requires a <= b
    ensures |a| <= |b| && (a != b ==> |a| < |b|)
  {
    if a != {} {
      var x :| x in a;
      SubsetSize(a - {x}, b - {x});
    }
  }

  lemma {:induction false} DistinctSize(s: seq<int>)
    requires forall j, k :: 0 <= j < k < |s| ==> s[j] != s[k]
    ensures |Members(s)| == |s|
  {
    if s != [] {
      var rest := s[1..];
      assert forall k :: 0 <= k < |rest| ==> rest[k] == s[k + 1];
      assert s[0] !in rest;
      DistinctSize(rest);
    }
  }

  /** Distinct indices below `n`: there are at most `n`, and exactly `n` if none is missing. */
  lemma Pigeonhole(s: seq<int>, n: nat)
    requires forall j, k :: 0 <= j < k < |s| ==> s[j] != s[k]
    requires forall k :: 0 <= k < |s| ==> 0 <= s[k] < n
    ensures |s| <= n && (|s| == n <==> forall w :: 0 <= w < n ==> w in s)
  {
    DistinctSize(s);
    SubsetSize(Members(s), Below(n));
    if forall w :: 0 <= w < n ==> w in s {
      assert Members(s) == Below(n);
    }
    if |s| == n {
      assert forall w :: 0 <= w < n ==> w in Below(n);
    }
  }

  lemma RankedDistinct(row: Ways, order: seq<nat>, count: nat)
    requires Ranked(row, order, count)
    ensures forall j, k :: 0 <= j < k < |order| ==> order[j] != order[k]
  {
  }

  /** The list is full exactly when every way is valid. */
  lemma FullWhenValid(row: Ways, order: seq<nat>, count: nat)
    requires Ordered(row, order, count)
    ensures |order| <= |row|
    ensures |order| == |row| <==> forall w :: 0 <= w < |row| ==> row[w].lastUsed > 0
  {
    RankedDistinct(row, order, count);
    Pigeonhole(order, |row|);
    hide Unique;
    forall w | 0 <= w < |row| && w in order ensures row[w].lastUsed > 0 {
      var k :| 0 <= k < |order| && order[k] == w;
      RankedAt(row, order, count, k);
      hide Ranked;
    }
    hide Ranked;
  }

  lemma RankedAt(row: Ways, order: seq<nat>, count: nat, k: nat)
    requires Ranked(row, order, count) && k < |order|
    ensures order[k] < |row| && 0 < row[order[k]].lastUsed <= count
  {
  }

  lemma OrderedMonotone(row: Ways, order: seq<nat>, count: nat, count': nat)
    requires Ordered(row, order, count) && count <= count'
    ensures Ordered(row, order, count')
  {
    hide Unique, Covering;
  }

  /** A way is moved to, or put at, the front of the order; `rest` are the others. */
  lemma FrontStep(row: Ways, rest: seq<nat>, count: nat, w: nat, e: Element)
    requires Ranked(row, rest, count) && Unique(row, rest) && w < |row| && w !in rest
    requires forall v :: 0 <= v < |row| && row[v].lastUsed > 0 && v != w ==> v in rest
    requires forall j :: 0 <= j < |rest| ==> row[rest[j]].elem.tag != e.tag
    ensures var row', order' := row[w := Block(count + 1, e)], [w] + rest;
      Ordered(row', order', count + 1) && Recency(row', order') == [e] + Recency(row, rest)
  {
    var row', order' := row[w := Block(count + 1, e)], [w] + rest;
    forall k | 0 <= k < |rest| ensures order'[k + 1] == rest[k] && row'[rest[k]] == row[rest[k]] {
    }
    FrontRanked(row, rest, count, w, e);
    FrontUnique(row, rest, w, Block(count + 1, e));
    hide Ranked, Unique;
  }

  lemma FrontRanked(row: Ways, rest: seq<nat>, count: nat, w: nat, e: Element)
    requires Ranked(row, rest, count) && w < |row| && w !in rest
    ensures Ranked(row[w := Block(count + 1, e)], [w] + rest, count + 1)
  {
  }

  lemma FrontUnique(row: Ways, rest: seq<nat>, w: nat, b: Block)
    requires forall k :: 0 <= k < |rest| ==> rest[k] < |row|
    requires Unique(row, rest) && w < |row| && w !in rest
    requires forall j :: 0 <= j < |rest| ==> row[rest[j]].elem.tag != b.elem.tag
    ensures Unique(row[w := b], [w] + rest)
  {
  }

  /** The others keep their order. */
  lemma RestStep(row: Ways, order: seq<nat>, count: nat, k: nat)
    requires Ordered(row, order, count) && k < |order|
    ensures Ranked(row, Without<nat>(order, k), count) && Unique(row, Without<nat>(order, k))
    ensures order[k] !in Without<nat>(order, k)
    ensures forall v :: 0 <= v < |row| && row[v].lastUsed > 0 && v != order[k] ==> v in Without<nat>(order, k)
  {
    RankedDistinct(row, order, count);
    RestRanked(row, order, count, k);
    RestUnique(row, order, k);
    hide Ranked, Unique;
    forall v | 0 <= v < |row| && row[v].lastUsed > 0 && v != order[k] ensures v in Without<nat>(order, k) {
      var j :| 0 <= j < |order| && order[j] == v;
      assert Without<nat>(order, k)[if j < k then j else j - 1] == v;
    }
  }

  lemma RestRanked(row: Ways, order: seq<nat>, count: nat, k: nat)
    requires Ranked(row, order, count) && k < |order|
    ensures Ranked(row, Without<nat>(order, k), count)
  {
    var rest := Without<nat>(order, k);
    forall i, j | 0 <= i < j < |rest| ensures row[rest[i]].lastUsed > row[rest[j]].lastUsed {
      var i', j' := if i < k then i else i + 1, if j < k then j else j + 1;
      assert rest[i] == order[i'] && rest[j] == order[j'];
    }
  }

  lemma RestUnique(row: Ways, order: seq<nat>, k: nat)
    requires forall j :: 0 <= j < |order| ==> order[j] < |row|
    requires Unique(row, order) && k < |order|
    ensures Unique(row, Without<nat>(order, k))
  {
    var rest := Without<nat>(order, k);
    forall i, j | 0 <= i < j < |rest| ensures row[rest[i]].elem.tag != row[rest[j]].elem.tag {
      var i', j' := if i < k then i else i + 1, if j < k then j else j + 1;
      assert rest[i] == order[i'] && rest[j] == order[j'];
    }
  }

  /** Using the way that the list has at `k` again moves it to the front. */
  lemma UseStep(row: Ways, order: seq<nat>, count: nat, k: nat, w: nat, e: Element)
    requires Ordered(row, order, count) && k < |order| && order[k] == w < |row| && e.tag == row[w].elem.tag
    ensures var row', order' := row[w := Block(count + 1, e)], [w] + Without<nat>(order, k);
      Ordered(row', order', count + 1) && Recency(row', order') == [e] + Without<Element>(Recency(row, order), k)
  {
    RestStep(row, order, count, k);
    forall j | 0 <= j < |Without<nat>(order, k)| ensures row[Without<nat>(order, k)[j]].elem.tag != e.tag {
      assert Without<nat>(order, k)[j] == order[if j < k then j else j + 1];
    }
    hide Ranked, Unique, Covering;
    FrontStep(row, Without<nat>(order, k), count, w, e);
    assert Recency(row, Without<nat>(order, k)) == Without<Element>(Recency(row, order), k);
  }

  /** A new tag in a way that was not valid. */
  lemma InsertStep(row: Ways, order: seq<nat>, count: nat, w: nat, e: Element)
    requires Ordered(row, order, count) && w < |row| && row[w].lastUsed == 0
    requires forall j :: 0 <= j < |order| ==> row[order[j]].elem.tag != e.tag
    ensures var row', order' := row[w := Block(count + 1, e)], [w] + order;
      Ordered(row', order', count + 1) && Recency(row', order') == [e] + Recency(row, order)
  {
    assert w !in order;
    hide Unique;
    FrontStep(row, order, count, w, e);
  }

  /** A new tag in the way used longest ago. */
  lemma EvictStep(row: Ways, order: seq<nat>, count: nat, e: Element)
    requires Ordered(row, order, count) && order != []
    requires forall j :: 0 <= j < |order| ==> row[order[j]].elem.tag != e.tag
    ensures var w, n := order[|order| - 1], |order| - 1;
      var row', order' := row[w := Block(count + 1, e)], [w] + order[..n];
      Ordered(row', order', count + 1) && Recency(row', order') == [e] + Recency(row, order)[..n]
  {
    var n := |order| - 1;
    RestStep(row, order, count, n);
    hide Ranked, Unique, Covering;
    assert Without<nat>(order, n) == order[..n];
    FrontStep(row, order[..n], count, order[n], e);
    assert Recency(row, order[..n]) == Recency(row, order)[..n];
  }

  lemma DropStep(row: Ways, order: seq<nat>, count: nat, k: nat, w: nat)
    requires Ordered(row, order, count) && k < |order| && order[k] == w < |row|
    ensures var row', order' := row[w := EMPTY], Without<nat>(order, k);
      Ordered(row', order', count) && Recency(row', order') == Without<Element>(Recency(row, order), k)
  {
    var row', rest := row[w := EMPTY], Without<nat>(order, k);
    RestStep(row, order, count, k);
    forall j | 0 <= j < |rest| ensures rest[j] < |row| && row'[rest[j]] == row[rest[j]] {
    }
    DropRanked(row, row', rest, count);
    hide Ranked;
    assert Recency(row', rest) == Without<Element>(Recency(row, order), k);
  }

  lemma DropRanked(row: Ways, row': Ways, rest: seq<nat>, count: nat)
    requires Ranked(row, rest, count) && |row'| == |row| && forall j :: 0 <= j < |rest| ==> row'[rest[j]] == row[rest[j]]
    ensures Ranked(row', rest, count)
  {
  }

  /** The way that matches a tag is the one that the list finds. */
  lemma WayFound(row: Ways, order: seq<nat>, count: nat, tag: nat)
    requires Ordered(row, order, count)
    ensures var k := Find(Recency(row, order), tag);
      if k < |order| then Matches(row[order[k]], tag) && forall w :: 0 <= w < |row| && Matches(row[w], tag) ==> w == order[k]
      else forall w :: 0 <= w < |row| ==> !Matches(row[w], tag)
  {
    forall w | 0 <= w < |row| && Matches(row[w], tag)
      ensures Find(Recency(row, order), tag) < |order| && w == order[Find(Recency(row, order), tag)]
    {
      assert w in order;
      var j :| 0 <= j < |order| && order[j] == w;
      assert Recency(row, order)[j].tag == tag;
    }
  }

  // ---- choosing a victim -----------------------------------------------------------------

  /** The order in which ways are given up: invalid ones, then those used longest ago, and the
      matching one last. */
  predicate Before(x: Block, y: Block, tag: nat) {
    var xMatch, yMatch := x.elem.tag == tag, y.elem.tag == tag;
    x.lastUsed == 0
    || (y.lastUsed > 0 && ((!xMatch && yMatch) || (xMatch == yMatch && x.lastUsed < y.lastUsed)))
  }

  ghost predicate IsLeast(row: Ways, miss: nat, tag: nat) {
    && miss < |row|
    && (row[miss].lastUsed == 0
        || forall w :: 0 <= w < |row| ==>
             row[w].lastUsed > 0
             && (row[miss].elem.tag == tag ==> row[w].elem.tag == tag)
             && ((row[miss].elem.tag == tag) == (row[w].elem.tag == tag) ==> row[miss].lastUsed <= row[w].lastUsed))
  }

  ghost predicate IsGreatest(row: Ways, hit: nat, tag: nat) {
    && hit < |row|
    && (row[hit].lastUsed == 0 ==> forall w :: 0 <= w < |row| ==> row[w].lastUsed == 0)
    && (row[hit].elem.tag != tag ==> forall w :: 0 <= w < |row| ==> !Matches(row[w], tag))
  }

  /** A fill decides as the list does: the matching way, an invalid way, or the least recently
      used one, which only happens when every way is valid. */
  lemma FillStep(row: Ways, order: seq<nat>, count: nat, e: Element, miss: nat, hit: nat) returns (order': seq<nat>)
    requires Ordered(row, order, count) && IsLeast(row, miss, e.tag) && IsGreatest(row, hit, e.tag)
    ensures var row' := row[(if row[hit].elem.tag == e.tag then hit else miss) := Block(count + 1, e)];
      Ordered(row', order', count + 1) && Recency(row', order') == Filled(Recency(row, order), e, |row|)
  {
    WayFound(row, order, count, e.tag);
    FullWhenValid(row, order, count);
    var k := Find(Recency(row, order), e.tag);
    var w := if row[hit].elem.tag == e.tag then hit else miss;
    hide Ranked, Unique;
    if k < |order| {
      assert !(row[order[k]].lastUsed == 0);
      assert w == order[k];
      UseStep(row, order, count, k, w, e);
      order' := [w] + Without<nat>(order, k);
    } else if row[w].lastUsed == 0 {
      NoneMatches(row, order, e.tag);
      InsertStep(row, order, count, w, e);
      order' := [w] + order;
    } else {
      NoneMatches(row, order, e.tag);
      LastIsLeast(row, order, count, miss, e.tag);
      EvictStep(row, order, count, e);
      order' := [w] + order[..|order| - 1];
    }
  }

  lemma NoneMatches(row: Ways, order: seq<nat>, tag: nat)
    requires forall k :: 0 <= k < |order| ==> order[k] < |row|
    requires Find(Recency(row, order), tag) == |order|
    ensures forall j :: 0 <= j < |order| ==> row[order[j]].elem.tag != tag
  {
    var l := Recency(row, order);
    forall j | 0 <= j < |order| ensures row[order[j]].elem.tag != tag {
      assert l[j] == row[order[j]].elem;
    }
  }

  lemma LastIsLeast(row: Ways, order: seq<nat>, count: nat, miss: nat, tag: nat)
    requires Ordered(row, order, count) && IsLeast(row, miss, tag) && row[miss].lastUsed > 0
    requires forall w :: 0 <= w < |row| ==> !Matches(row[w], tag)
    ensures order != [] && miss == order[|order| - 1]
  {
    assert miss in order;
    var j :| 0 <= j < |order| && order[j] == miss;
    assert !Matches(row[order[|order| - 1]], tag) && !Matches(row[miss], tag);
  }

  // ---- the table -------------------------------------------------------------------------

  class LruTable {
    const block: array2<Block>
    var accessCount: nat

    /** For each set, its valid ways, last used first. */
    ghost var order: seq<seq<nat>>

    /** History: for each set, the calls so far. */
    ghost var log: seq<seq<Call>>

    ghost predicate Valid()
      reads this`order, this`accessCount, block
    {
      && block.Length0 >= 1 && |order| == block.Length0
      && forall i :: 0 <= i < |order| ==> Ordered(Row(block, i), order[i], accessCount)
    }

    /** The elements of set `i`, last used first. */
    ghost function Contents(i: nat): (l: seq<Element>)
      requires Valid() && i < |order|
      reads this`order, this`accessCount, block
    {
      Recency(Row(block, i), order[i])
    }

    /** All sets. */
    ghost function View(): (v: seq<seq<Element>>)
      requires Valid()
      reads this, block
      ensures |v| == block.Length0 && forall i :: 0 <= i < |v| ==> v[i] == Contents(i)
    {
      seq(|order|, i requires Valid() && 0 <= i < |order| reads this, block => Contents(i))
    }

    function SetOf(e: Element): (i: nat)
      requires block.Length0 >= 1 && e.index >= 0
      ensures i < block.Length0 && (e.index - i) % block.Length0 == 0
    {
      SetIs(e.index, block.Length0);
      e.index % block.Length0
    }

    /** Every set is what its calls make of an empty list. */
    ghost predicate Logged()
      requires Valid()
      reads this, block
    {
      |log| == block.Length0 && forall i :: 0 <= i < |log| ==> View()[i] == Run(log[i], block.Length1)
    }

    /** In every reachable state each set lists its elements by the time of their last hit or
        fill, each tag once and no more than there are ways. */
    lemma SetsByLastUse(i: nat)
      requires Valid() && Logged() && i < block.Length0
      ensures ByLastUse(Contents(i), log[i]) && DistinctTags(Contents(i)) && |Contents(i)| <= block.Length1
    {
      assert View()[i] == Contents(i);
      hide Valid, View, Contents, ByLastUse, DistinctTags, Run;
      RunByLastUse(log[i], block.Length1);
    }

    constructor (sets: nat, ways: nat)
      requires sets >= 1
      ensures Valid() && fresh(block) && block.Length0 == sets && block.Length1 == ways
      ensures forall i :: 0 <= i < sets ==> View()[i] == []
      ensures Logged() && forall i :: 0 <= i < sets ==> log[i] == []
    {
      block := new Block[sets, ways]((i, w) => EMPTY);
      accessCount := 0;
      order := seq(sets, _ => []);
      log := seq(sets, _ => []);
    }

    method FindWay(i: nat, tag: nat) returns (way: nat)
      requires i < block.Length0
      ensures way <= block.Length1 && (way < block.Length1 ==> Matches(Row(block, i)[way], tag))
      ensures way == block.Length1 ==> forall w :: 0 <= w < block.Length1 ==> !Matches(Row(block, i)[w], tag)
    {
      way := 0;
      while way < block.Length1 && !Matches(block[i, way], tag)
        invariant way <= block.Length1 && forall w :: 0 <= w < way ==> !Matches(Row(block, i)[w], tag)
      {
        way := way + 1;
      }
    }

    /** Writes one way; `row` is its set and `o` the set's order afterwards. */
    method Write(i: nat, w: nat, b: Block, count: nat, ghost row: Ways, ghost o: seq<nat>)
      requires Valid() && i < block.Length0 && w < block.Length1 && count >= accessCount
      requires row == Row(block, i)[w := b] && Ordered(row, o, count)
      modifies this`order, this`accessCount, block
      ensures Valid() && accessCount == count
      ensures View() == old(View())[i := Recency(row, o)]
    {
      OrderInRange(row, o, count);
      hide Ordered, Recency;
      ghost var v := View();
      ghost var old_order, old_count := order, accessCount;
      label before:
      block[i, w] := b;
      order := order[i := o];
      accessCount := count;
      assert Row(block, i) == row;
      forall j | 0 <= j < block.Length0 && j != i
        ensures Row(block, j) == old@before(Row(block, j)) && Ordered(Row(block, j), order[j], accessCount)
      {
        assert Row(block, j) == old@before(Row(block, j));
        OrderedMonotone(Row(block, j), old_order[j], old_count, count);
      }
      forall j | 0 <= j < block.Length0 ensures View()[j] == v[i := Recency(Row(block, i), o)][j] {
        assert View()[j] == Contents(j) && v[j] == old@before(Contents(j));
      }
    }

    /** A hit returns the stored element and makes it the last used. */
    method CheckHit(e: Element) returns (r: Result<Option<Element>>)
      requires Valid()
      modifies this, block
      ensures Valid() && r.Failure? == (e.index < 0)
      ensures r.Failure? ==> View() == old(View()) && log == old(log)
      ensures r.Success? ==>
        && r.value == Hit(old(View())[SetOf(e)], e.tag)
        && View() == old(View())[SetOf(e) := Touched(old(View())[SetOf(e)], e.tag)]
      ensures old(Logged()) ==> Logged() && (r.Success? ==> log == old(log)[SetOf(e) := old(log)[SetOf(e)] + [Check(e.tag)]])
    {
      if e.index < 0 {
        return Failure("negative set index");
      }
      var i := SetOf(e);
      ghost var v, calls := View(), log;
      r := Look(i, e);
      if |log| == block.Length0 {
        RunNext(calls[i], Check(e.tag), block.Length1);
        Note(i, Check(e.tag));
      }
    }

    /** Records a call on set `i`. */
    ghost method Note(i: nat, c: Call)
      requires Valid() && |log| == block.Length0 && i < |log|
      modifies this`log
      ensures Valid() && log == old(log)[i := old(log)[i] + [c]] && View() == old(View())
    {
      ghost var v := View();
      log := log[i := log[i] + [c]];
      assert forall j :: 0 <= j < |v| ==> View()[j] == Contents(j) == v[j];
    }

    /** The same on set `i`. */
    method Look(i: nat, e: Element) returns (r: Result<Option<Element>>)
      requires Valid() && e.index >= 0 && i == SetOf(e)
      modifies this`order, this`accessCount, block
      ensures Valid() && r.Success? && r.value == Hit(old(View())[i], e.tag) && View() == old(View())[i := Touched(old(View())[i], e.tag)]
    {
      var way := FindWay(i, e.tag);
      WayFound(Row(block, i), order[i], accessCount, e.tag);
      hide Ordered, Recency;
      if way == block.Length1 {
        assert View()[i := View()[i]] == View();
        return Success(None);
      }
      ghost var k := Find(Contents(i), e.tag);
      var data := block[i, way].elem;
      Use(i, way, data, k);
      r := Success(Some(data));
    }

    /** Marks the way at place `k` of the order as the last used. */
    method Use(i: nat, way: nat, data: Element, ghost k: nat)
      requires Valid() && i < block.Length0 && way < block.Length1 && k < |order[i]| && order[i][k] == way
      requires data == Row(block, i)[way].elem
      modifies this`order, this`accessCount, block
      ensures Valid() && View() == old(View())[i := [data] + Without<Element>(old(View())[i], k)]
    {
      ghost var row, o, count := Row(block, i), order[i], accessCount;
      assert View()[i] == Recency(row, o) && Ordered(row, o, count);
      hide Ordered, Recency, Contents, Without, Valid, View;
      UseStep(row, o, count, k, way, data);
      ghost var row', o' := row[way := Block(count + 1, data)], [way] + Without<nat>(o, k);
      Write(i, way, Block(accessCount + 1, data), accessCount + 1, row', o');
    }

    /** The ways that would be given up first and last, by one scan. */
    method MinMax(i: nat, tag: nat) returns (miss: nat, hit: nat)
      requires i < block.Length0 && block.Length1 >= 1
      ensures IsLeast(Row(block, i), miss, tag) && IsGreatest(Row(block, i), hit, tag)
    {
      miss, hit := 0, 0;
      ghost var row := Row(block, i);
      for w := 1 to block.Length1
        invariant IsLeast(row[..w], miss, tag) && IsGreatest(row[..w], hit, tag)
      {
        var b := block[i, w];
        if Before(b, block[i, miss], tag) {
          miss := w;
        }
        if !Before(b, block[i, hit], tag) {
          hit := w;
        }
      }
      assert row[..block.Length1] == row;
    }

    /** Stores the element as the last used of its set. */
    method Fill(e: Element) returns (r: Result<()>)
      requires Valid()
      modifies this, block
      ensures Valid() && r.Failure? == (e.index < 0)
      ensures r.Failure? ==> View() == old(View()) && log == old(log)
      ensures r.Success? ==> View() == old(View())[SetOf(e) := Filled(old(View())[SetOf(e)], e, block.Length1)]
      ensures old(Logged()) ==> Logged() && (r.Success? ==> log == old(log)[SetOf(e) := old(log)[SetOf(e)] + [Store(e)]])
    {
      if e.index < 0 {
        return Failure("negative set index");
      }
      var i := SetOf(e);
      ghost var v, calls := View(), log;
      r := Put(i, e);
      if |log| == block.Length0 {
        RunNext(calls[i], Store(e), block.Length1);
        Note(i, Store(e));
      }
    }

    /** The same on set `i`. */
    method Put(i: nat, e: Element) returns (r: Result<()>)
      requires Valid() && e.index >= 0 && i == SetOf(e)
      modifies this`order, this`accessCount, block
      ensures Valid() && r.Success? && View() == old(View())[i := Filled(old(View())[i], e, block.Length1)]
    {
      if block.Length1 > 0 {
        Replace(i, e);
      } else {
        FilledNoWays(View()[i], e);
        assert View()[i := View()[i]] == View();
      }
      r := Success(());
    }

    /** Puts the element into its own way, or into the one given up first. */
    method Replace(i: nat, e: Element)
      requires Valid() && i < block.Length0 && block.Length1 > 0
      modifies this`order, this`accessCount, block
      ensures Valid() && View() == old(View())[i := Filled(old(View())[i], e, block.Length1)]
    {
      ghost var row, o, count := Row(block, i), order[i], accessCount;
      assert View()[i] == Recency(row, o) && Ordered(row, o, count) && |row| == block.Length1;
      hide Ordered, Recency, Contents, Valid, View, Filled, IsLeast, IsGreatest;
      var miss, hit := MinMax(i, e.tag);
      ghost var o' := FillStep(row, o, count, e, miss, hit);
      InRow(row, miss, hit, e.tag);
      var w := if block[i, hit].elem.tag == e.tag then hit else miss;
      Write(i, w, Block(accessCount + 1, e), accessCount + 1, row[w := Block(count + 1, e)], o');
    }

    /** Removes the element with this tag, if any. */
    method Invalidate(e: Element) returns (r: Result<Option<Element>>)
      requires Valid()
      modifies this, block
      ensures Valid() && r.Failure? == (e.index < 0)
      ensures r.Failure? ==> View() == old(View()) && log == old(log)
      ensures r.Success? ==>
        && r.value == Hit(old(View())[SetOf(e)], e.tag)
        && View() == old(View())[SetOf(e) := Removed(old(View())[SetOf(e)], e.tag)]
      ensures old(Logged()) ==> Logged() && (r.Success? ==> log == old(log)[SetOf(e) := old(log)[SetOf(e)] + [Drop(e.tag)]])
    {
      if e.index < 0 {
        return Failure("negative set index");
      }
      var i := SetOf(e);
      ghost var v, calls := View(), log;
      r := Remove(i, e);
      if |log| == block.Length0 {
        RunNext(calls[i], Drop(e.tag), block.Length1);
        Note(i, Drop(e.tag));
      }
    }

    /** The same on set `i`. */
    method Remove(i: nat, e: Element) returns (r: Result<Option<Element>>)
      requires Valid() && e.index >= 0 && i == SetOf(e)
      modifies this`order, this`accessCount, block
      ensures Valid() && r.Success? && r.value == Hit(old(View())[i], e.tag) && View() == old(View())[i := Removed(old(View())[i], e.tag)]
    {
      var way := FindWay(i, e.tag);
      WayFound(Row(block, i), order[i], accessCount, e.tag);
      hide Ordered, Recency;
      if way == block.Length1 {
        assert View()[i := View()[i]] == View();
        return Success(None);
      }
      ghost var k := Find(Contents(i), e.tag);
      var data := block[i, way].elem;
      DropStep(Row(block, i), order[i], accessCount, k, way);
      Write(i, way, EMPTY, accessCount, Row(block, i)[way := EMPTY], Without<nat>(order[i], k));
      r := Success(Some(data));
    }
  }

  lemma SetIs(index: int, sets: nat)
    requires sets >= 1
    ensures (index - index % sets) % sets == 0
  {
    var q := index / sets;
    assert index - index % sets == q * sets;
    MultipleOf(q, sets);
  }

  lemma MultipleOf(q: int, n: nat)
    requires n >= 1
    ensures (q * n) % n == 0
  {
    var d := (q * n) / n;
    assert q * n == d * n + (q * n) % n;
    assert (q - d) * n == (q * n) % n;
    SmallMultiple(q - d, n);
  }

  lemma SmallMultiple(k: int, n: nat)
    requires 0 <= k * n < n
    ensures k == 0
  {
    if k > 0 {
      MulMonotone(1, k, n);
    } else if k < 0 {
      MulMonotone(1, -k, n);
    }
  }

  lemma RunNext(calls: seq<Call>, c: Call, ways: nat)
    ensures Run(calls + [c], ways) == After(Run(calls, ways), c, ways)
  {
    assert (calls + [c])[..|calls|] == calls;
  }

  lemma FilledNoWays(l: seq<Element>, e: Element)
    ensures Filled(l, e, 0) == l
  {
  }

  lemma OrderInRange(row: Ways, order: seq<nat>, count: nat)
    requires Ordered(row, order, count)
    ensures forall k :: 0 <= k < |order| ==> order[k] < |row|
  {
  }

  lemma InRow(row: Ways, miss: nat, hit: nat, tag: nat)
    requires IsLeast(row, miss, tag) && IsGreatest(row, hit, tag)
    ensures miss < |row| && hit < |row|
  {
  }
}
