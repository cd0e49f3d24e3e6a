/** The loop predictor of L-TAGE: it counts how often a branch is taken before it falls through
    and, once the count has repeated, predicts the exit. */
module LoopPrediction {
  import opened Grids

  const NUM_SETS := 64
  const NUM_WAYS := 4
  const MAX_ITER := 16383
  const MAX_CONFIDENCE := 3
  const INIT_AGE := 255
  const TAG_RANGE := 16384

  datatype LoopEntry = LoopEntry(past: nat, curr: nat, tag: nat, confidence: nat, age: nat)

  /** What the last lookup found. After a miss, only `hit` and `valid` mean anything. */
  datatype LoopInfo = LoopInfo(hit: bool, index: nat, way: nat, prediction: bool, valid: bool)

  datatype Event = Event(ip: nat, taken: bool)

  type Row = seq<LoopEntry>
  type Table = seq<Row>

  function SetOf(ip: nat): (s: nat)
    ensures s < NUM_SETS
  {
    ip % NUM_SETS
  }

  function TagOf(ip: nat): nat {
    ip / NUM_SETS % TAG_RANGE
  }

  function Bump(x: nat, max: nat): nat {
    if x < max then x + 1 else max
  }

  ghost predicate Shaped(t: Table) {
    |t| == NUM_SETS && forall i :: 0 <= i < |t| ==> |t[i]| == NUM_WAYS
  }

  // ---- what one lookup and one update do -------------------------------------------------

  /** The first way from `k` on with this tag, or the row's length. */
  function MatchFrom(row: Row, tag: nat, k: nat): (w: nat)
    requires k <= |row|
    ensures k <= w <= |row| && (w < |row| ==> row[w].tag == tag)
    ensures forall j :: k <= j < w ==> row[j].tag != tag
    decreases |row| - k
  {
    if k == |row| || row[k].tag == tag then k else MatchFrom(row, tag, k + 1)
  }

  /** The first way from `k` on that may be replaced, or the row's length. */
  function VacantFrom(row: Row, k: nat): (w: nat)
    requires k <= |row|
    ensures k <= w <= |row| && (w < |row| ==> row[w].age == 0)
    ensures forall j :: k <= j < w ==> row[j].age != 0
    decreases |row| - k
  {
    if k == |row| || row[k].age == 0 then k else VacantFrom(row, k + 1)
  }

  function Lookup(t: Table, ip: nat): LoopInfo
    requires Shaped(t)
  {
    var row := t[SetOf(ip)];
    var w := MatchFrom(row, TagOf(ip), 0);
    if w < |row| then LoopInfo(true, SetOf(ip), w, row[w].curr != row[w].past, row[w].confidence == MAX_CONFIDENCE)
    else LoopInfo(false, 0, 0, false, false)
  }

  /** A confident entry after an outcome. */
  function Confirm(e: LoopEntry, prediction: bool, taken: bool): LoopEntry {
    if prediction == taken then
      if taken then e.(age := Bump(e.age, INIT_AGE), curr := Bump(e.curr, MAX_ITER))
      else e.(age := Bump(e.age, INIT_AGE), past := e.curr, curr := 0, confidence := Bump(e.confidence, MAX_CONFIDENCE))
    else e.(past := 0, curr := if taken then 1 else 0, age := 0, confidence := 0)
  }

  /** An entry that is still counting after an outcome. */
  function Count(e: LoopEntry, taken: bool): LoopEntry {
    if taken then
      if e.past == 0 then e.(curr := Bump(e.curr, MAX_ITER))
      else if e.curr + 1 > e.past then e.(past := 0, curr := 1, age := 0, confidence := 0)
      else e.(curr := Bump(e.curr, MAX_ITER))
    else
      if e.past == 0 || e.past == e.curr then e.(past := e.curr, curr := 0, confidence := Bump(e.confidence, MAX_CONFIDENCE))
      else e.(past := 0, curr := 0, age := 0, confidence := 0)
  }

  function Updated(e: LoopEntry, info: LoopInfo, taken: bool): LoopEntry {
    if info.valid then Confirm(e, info.prediction, taken) else Count(e, taken)
  }

  function Younger(e: LoopEntry): LoopEntry {
    e.(age := if e.age > 0 then e.age - 1 else 0)
  }

  function AgedUpTo(row: Row, n: nat): (r: Row)
    requires n <= |row|
    ensures |r| == |row| && forall j :: 0 <= j < |row| ==> r[j] == if j < n then Younger(row[j]) else row[j]
  {
    if n == 0 then row else AgedUpTo(row, n - 1)[n - 1 := Younger(row[n - 1])]
  }

  /** Takes the first way whose age is 0; if there is none, all ways age. */
  function Allocate(row: Row, tag: nat): (r: Row)
    ensures |r| == |row|
  {
    var w := VacantFrom(row, 0);
    if w < |row| then row[w := LoopEntry(0, 1, tag, 0, INIT_AGE)] else AgedUpTo(row, |row|)
  }

  function Update(t: Table, info: LoopInfo, ip: nat, taken: bool): (t': Table)
    requires Shaped(t) && (info.hit ==> info.index < NUM_SETS && info.way < NUM_WAYS)
    ensures Shaped(t')
  {
    if info.hit then t[info.index := t[info.index][info.way := Updated(t[info.index][info.way], info, taken)]]
    else if taken then t[SetOf(ip) := Allocate(t[SetOf(ip)], TagOf(ip))]
    else t
  }

  /** One branch: it is looked up, and then its outcome is learned. */
  function Step(t: Table, e: Event): (t': Table)
    requires Shaped(t)
    ensures Shaped(t')
  {
    Update(t, Lookup(t, e.ip), e.ip, e.taken)
  }

  function Run(t: Table, es: seq<Event>, n: nat): (t': Table)
    requires Shaped(t) && n <= |es|
    ensures Shaped(t')
  {
    if n == 0 then t else Step(Run(t, es, n - 1), es[n - 1])
  }

  // ---- the predictor ---------------------------------------------------------------------

  class LoopPredictor {
    const component: array2<LoopEntry>
    var info: LoopInfo

    ghost predicate Valid()
      reads this, component
    {
      && component.Length0 == NUM_SETS && component.Length1 == NUM_WAYS
      && (info.hit ==> info.index < NUM_SETS && info.way < NUM_WAYS)
    }

    ghost function View(): (t: Table)
      requires component.Length0 == NUM_SETS && component.Length1 == NUM_WAYS
      reads component
      ensures Shaped(t)
    {
      Rows(component)
    }

    constructor ()
      ensures Valid() && fresh(component) && !info.hit
      ensures forall i, j :: 0 <= i < NUM_SETS && 0 <= j < NUM_WAYS ==> View()[i][j] == LoopEntry(0, 0, 0, 0, 0)
    {
      component := new LoopEntry[NUM_SETS, NUM_WAYS]((i, j) => LoopEntry(0, 0, 0, 0, 0));
      info := LoopInfo(false, 0, 0, false, false);
    }

    /** Looks the branch up. The result is the predicted direction, false on a miss. */
    method PredictBranch(ip: nat) returns (prediction: bool)
      requires Valid()
      modifies this`info
      ensures Valid() && prediction == Lookup(View(), ip).prediction
      ensures info.hit == Lookup(View(), ip).hit && info.valid == Lookup(View(), ip).valid
      ensures info.hit ==> info == Lookup(View(), ip)
    {
      var index, tag := ip % NUM_SETS, ip / NUM_SETS % TAG_RANGE;
      ghost var row := View()[index];
      for j := 0 to NUM_WAYS
        invariant MatchFrom(row, tag, j) == MatchFrom(row, tag, 0) && row == View()[index] && Valid() && info == old(info)
      {
        var entry := component[index, j];
        assert entry == row[j];
        if entry.tag == tag {
          prediction := entry.curr != entry.past;
          info := LoopInfo(true, index, j, prediction, entry.confidence == MAX_CONFIDENCE);
          return;
        }
      }
      info := info.(hit := false, valid := false);
      prediction := false;
    }

    /** Learns the outcome of the branch that was looked up last. */
    method LastBranchResult(ip: nat, taken: bool)
      requires Valid()
      modifies component
      ensures Valid() && View() == Update(old(View()), info, ip, taken)
    {
      if !info.hit {
        if taken {
          AllocateEntry(ip);
        }
        return;
      }
      var i, w := info.index, info.way;
      var entry := component[i, w];
      if info.valid {
        if info.prediction == taken && taken {
          component[i, w] := entry.(age := Bump(entry.age, INIT_AGE), curr := Bump(entry.curr, MAX_ITER));
        } else if info.prediction == taken && !taken {
          component[i, w] := entry.(age := Bump(entry.age, INIT_AGE), past := entry.curr, curr := 0,
                                    confidence := Bump(entry.confidence, MAX_CONFIDENCE));
        } else if taken {
          component[i, w] := entry.(past := 0, curr := 1, age := 0, confidence := 0);
        } else {
          component[i, w] := entry.(past := 0, curr := 0, age := 0, confidence := 0);
        }
      } else if taken {
        if entry.past == 0 {
          component[i, w] := entry.(curr := Bump(entry.curr, MAX_ITER));
        } else if entry.curr + 1 > entry.past {
          component[i, w] := entry.(past := 0, curr := 1, age := 0, confidence := 0);
        } else {
          component[i, w] := entry.(curr := Bump(entry.curr, MAX_ITER));
        }
      } else {
        if entry.past == 0 || entry.past == entry.curr {
          component[i, w] := entry.(past := entry.curr, curr := 0, confidence := Bump(entry.confidence, MAX_CONFIDENCE));
        } else {
          component[i, w] := entry.(past := 0, curr := 0, age := 0, confidence := 0);
        }
      }
      OnePlace(old(View()), View(), i, w, Updated(entry, info, taken));
    }

    /** Allocates an entry for a taken branch that missed, or ages its set. */
    method AllocateEntry(ip: nat)
      requires Valid()
      modifies component
      ensures Valid() && View() == old(View())[SetOf(ip) := Allocate(old(View())[SetOf(ip)], TagOf(ip))]
    {
      var index, tag := ip % NUM_SETS, ip / NUM_SETS % TAG_RANGE;
      ghost var before := View();
      ghost var row := before[index];
      for j := 0 to NUM_WAYS
        invariant VacantFrom(row, j) == VacantFrom(row, 0) && View() == before
      {
        if component[index, j].age == 0 {
          component[index, j] := LoopEntry(0, 1, tag, 0, INIT_AGE);
          OnePlace(before, View(), index, j, LoopEntry(0, 1, tag, 0, INIT_AGE));
          return;
        }
      }
      AgeSet(index);
    }

    method AgeSet(index: nat)
      requires Valid() && index < NUM_SETS
      modifies component
      ensures Valid() && View() == old(View())[index := AgedUpTo(old(View())[index], NUM_WAYS)]
    {
      ghost var row := View()[index];
      for j := 0 to NUM_WAYS
        invariant View() == old(View())[index := AgedUpTo(row, j)]
      {
        ghost var mid := View();
        var entry := component[index, j];
        assert entry == mid[index][j] == row[j];
        component[index, j] := Younger(entry);
        OnePlace(mid, View(), index, j, Younger(row[j]));
      }
    }
  }
}
