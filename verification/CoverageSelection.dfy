/** Coverage-greedy evidence selection over precomputed scores
    (flood_system/frc_housing_ablation.py and flood_system/frc_public_evidence.py).

    Both repositories' selectors pick, step by step, the affordable item with the largest
    (objective, id). They differ in how the objective is put together and in what they keep
    between steps; both are proved against one notion of a greedy run over an objective. */
module CoverageSelection {
  import opened Ordering

  datatype Item = Item(
    id: string, tokenCount: int, scores: map<string, real>,
    fieldScores: map<string, real>, roleScores: map<string, real>)

  datatype Kind = Field | Role

  function Get(m: map<string, real>, key: string): real {
    if key in m then m[key] else 0.0
  }

  function LabelScore(kind: Kind, item: Item, name: string): real {
    Get(if kind.Field? then item.fieldScores else item.roleScores, name)
  }

  function Relevance(item: Item): real {
    Get(item.scores, "cross_encoder")
  }

  /** The score under a key; a missing one counts as zero. */
  ghost predicate HasScore(m: map<string, real>, key: string, score: real) {
    (key in m && score == m[key]) || (key !in m && score == 0.0)
  }

  /** Thresholds with per-label overrides. */
  datatype Thresholds = Thresholds(common: real, overrides: map<string, real>) {
    function Of(name: string): real {
      if name in overrides then overrides[name] else common
    }
  }

  // ---------------------------------------------------------------- what one label gains

  function Gain(prior: real, score: real, threshold: real): real {
    if prior < threshold <= MaxReal(prior, score) then 1.0 else MaxReal(0.0, score - prior) * 0.25
  }

  /** For a positive threshold the gain never rises with the old best exactly when the score does
      not exceed the threshold by more than four. */
  lemma GainAntitoneIff(score: real, threshold: real)
    requires threshold > 0.0
    ensures (forall low, high | 0.0 <= low <= high :: Gain(high, score, threshold) <= Gain(low, score, threshold))
            <==> score <= threshold + 4.0
  {
    if score > threshold + 4.0 {
      assert Gain(threshold, score, threshold) > Gain(0.0, score, threshold);
    }
  }

  // ---------------------------------------------------------------- features of a selection

  /** The best score a label has reached in the selection, starting from zero. */
  function Best(kind: Kind, sel: seq<Item>, name: string): (r: real)
    ensures r >= 0.0
  {
    if sel == [] then 0.0
    else MaxReal(Best(kind, sel[..|sel| - 1], name), LabelScore(kind, sel[|sel| - 1], name))
  }

  function CostOf(sel: seq<Item>): int {
    if sel == [] then 0 else CostOf(sel[..|sel| - 1]) + sel[|sel| - 1].tokenCount
  }

  function Ids(sel: seq<Item>): set<string> {
    set item | item in sel :: item.id
  }

  function Without(cands: seq<Item>, ids: set<string>): seq<Item> {
    if cands == [] then []
    else (if cands[0].id in ids then [] else [cands[0]]) + Without(cands[1..], ids)
  }

  function GainSum(kind: Kind, labels: seq<string>, thresholds: Thresholds, item: Item, sel: seq<Item>): real {
    if labels == [] then 0.0
    else
      var init, name := labels[..|labels| - 1], labels[|labels| - 1];
      GainSum(kind, init, thresholds, item, sel)
      + Gain(Best(kind, sel, name), LabelScore(kind, item, name), thresholds.Of(name))
  }

  /** The settings of one selection call. */
  datatype Objective = Objective(
    fields: seq<string>, roles: seq<string>, fieldWeight: real, roleWeight: real,
    fieldThresholds: Thresholds, roleThresholds: Thresholds)

  /** A weighted mean over `n` labels; without labels the sum is divided by one. */
  function WeightedMean(weight: real, total: real, n: nat): real {
    weight * (total / MaxInt(1, n) as real)
  }

  function Value(o: Objective, item: Item, sel: seq<Item>): real {
    WeightedMean(o.fieldWeight, GainSum(Field, o.fields, o.fieldThresholds, item, sel), |o.fields|)
    + WeightedMean(o.roleWeight, GainSum(Role, o.roles, o.roleThresholds, item, sel), |o.roles|)
    + Relevance(item)
  }

  /** First occurrences of the labels, as the keys of a dictionary built from them. */
  function Distinct(labels: seq<string>): seq<string> {
    if labels == [] then []
    else
      var init, name := Distinct(labels[..|labels| - 1]), labels[|labels| - 1];
      if name in init then init else init + [name]
  }

  predicate NoRepeats(labels: seq<string>) {
    forall i, j | 0 <= i < j < |labels| :: labels[i] != labels[j]
  }

  /** The objective of the second selector: distinct roles only, with weight two. */
  function RoleValue(roles: seq<string>, thresholds: Thresholds, item: Item, sel: seq<Item>): real {
    WeightedMean(2.0, GainSum(Role, Distinct(roles), thresholds, item, sel), |Distinct(roles)|) + Relevance(item)
  }

  // ---------------------------------------------------------------- greedy runs

  type Valuation = (Item, seq<Item>) -> real

  /** `(a, x)` comes before `(b, y)` as a Python tuple of objective and id. */
  predicate KeyLess(a: real, x: Item, b: real, y: Item) {
    a < b || (a == b && LexLess(x.id, y.id))
  }

  /** The objective of each item of the pool, or none when it does not fit the budget. */
  ghost function Scored(value: Valuation, budget: int, pool: seq<Item>, sel: seq<Item>): seq<Option<real>> {
    seq(|pool|, i requires 0 <= i < |pool| =>
      if CostOf(sel) + pool[i].tokenCount <= budget then Some(value(pool[i], sel)) else None)
  }

  /** Python's `max` over the scored items: the first one with the largest key. */
  predicate IsFirstMax(pool: seq<Item>, scored: seq<Option<real>>, i: int)
    requires |scored| == |pool|
  {
    && 0 <= i < |pool| && scored[i].Some?
    && (forall j | 0 <= j < |pool| && scored[j].Some? ::
          !KeyLess(scored[i].value, pool[i], scored[j].value, pool[j]))
    && (forall j | 0 <= j < i && scored[j].Some? ::
          KeyLess(scored[j].value, pool[j], scored[i].value, pool[i]))
  }

  ghost predicate IsNext(value: Valuation, budget: int, cands: seq<Item>, sel: seq<Item>, item: Item) {
    var pool := Without(cands, Ids(sel));
    exists i :: IsFirstMax(pool, Scored(value, budget, pool, sel), i) && pool[i] == item
  }

  ghost predicate GreedyPrefix(value: Valuation, k: int, budget: int, cands: seq<Item>, sel: seq<Item>) {
    sel == [] ||
    var before := sel[..|sel| - 1];
    && GreedyPrefix(value, k, budget, cands, before)
    && |before| < k
    && IsNext(value, budget, cands, before, sel[|sel| - 1])
  }

  ghost predicate GreedyRun(value: Valuation, k: int, budget: int, cands: seq<Item>, sel: seq<Item>) {
    && GreedyPrefix(value, k, budget, cands, sel)
    && (|sel| >= k || forall item | item in cands && item.id !in Ids(sel) ::
          CostOf(sel) + item.tokenCount > budget)
  }

  lemma {:induction false} WithoutMember(cands: seq<Item>, ids: set<string>, item: Item)
    ensures item in Without(cands, ids) <==> item in cands && item.id !in ids
    ensures |Without(cands, ids)| <= |cands|
    ensures |Without(cands, ids)| == |cands| ==> forall x | x in cands :: x.id !in ids
  {
    if cands != [] {
      WithoutMember(cands[1..], ids, item);
    }
  }

  lemma {:induction false} WithoutTwice(cands: seq<Item>, a: set<string>, b: set<string>)
    ensures Without(Without(cands, a), b) == Without(cands, a + b)
  {
    if cands != [] {
      WithoutTwice(cands[1..], a, b);
      var tail := Without(cands[1..], a);
      if cands[0].id !in a {
        assert Without(cands, a) == [cands[0]] + tail;
        assert Without(cands, a)[1..] == tail;
      } else {
        assert Without(cands, a) == tail;
      }
    }
  }

  lemma {:induction false} WithoutNothing(cands: seq<Item>)
    ensures Without(cands, {}) == cands
  {
    if cands != [] {
      WithoutNothing(cands[1..]);
    }
  }

  lemma Extend(sel: seq<Item>, item: Item)
    ensures (sel + [item])[..|sel|] == sel
    ensures CostOf(sel + [item]) == CostOf(sel) + item.tokenCount
    ensures Ids(sel + [item]) == Ids(sel) + {item.id}
    ensures forall kind, name :: Best(kind, sel + [item], name)
              == MaxReal(Best(kind, sel, name), LabelScore(kind, item, name))
  {
    assert (sel + [item])[..|sel|] == sel;
  }

  lemma KeyTransitive(a: real, x: Item, b: real, y: Item, c: real, z: Item)
    requires KeyLess(b, y, a, x) && !KeyLess(b, y, c, z)
    ensures KeyLess(c, z, a, x) && !KeyLess(a, x, c, z)
  {
    LexTrichotomy(x.id, y.id);
    LexTrichotomy(x.id, z.id);
    LexTrichotomy(y.id, z.id);
    if LexLess(z.id, y.id) && LexLess(y.id, x.id) {
      LexTransitive(z.id, y.id, x.id);
    }
  }

  lemma NextIsFresh(value: Valuation, budget: int, cands: seq<Item>, sel: seq<Item>, item: Item)
    requires IsNext(value, budget, cands, sel, item)
    ensures item in cands && item.id !in Ids(sel) && item in Without(cands, Ids(sel))
    ensures CostOf(sel) + item.tokenCount <= budget
  {
    WithoutMember(cands, Ids(sel), item);
  }

  /** The pick has the largest key among everything that could have been picked. */
  lemma NextIsLargest(value: Valuation, budget: int, cands: seq<Item>, sel: seq<Item>, item: Item, other: Item)
    requires IsNext(value, budget, cands, sel, item)
    requires other in cands && other.id !in Ids(sel) && CostOf(sel) + other.tokenCount <= budget
    ensures !KeyLess(value(item, sel), item, value(other, sel), other)
  {
    hide Without;
    var pool := Without(cands, Ids(sel));
    WithoutMember(cands, Ids(sel), other);
    var j :| 0 <= j < |pool| && pool[j] == other;
    assert Scored(value, budget, pool, sel)[j].Some?;
  }

  lemma StepRun(value: Valuation, k: int, budget: int, cands: seq<Item>, sel: seq<Item>, item: Item)
    requires GreedyPrefix(value, k, budget, cands, sel) && |sel| < k
    requires IsNext(value, budget, cands, sel, item)
    ensures GreedyPrefix(value, k, budget, cands, sel + [item])
    ensures Without(Without(cands, Ids(sel)), {item.id}) == Without(cands, Ids(sel + [item]))
    ensures |Without(cands, Ids(sel + [item]))| < |Without(cands, Ids(sel))|
  {
    hide IsNext, Without;
    NextIsFresh(value, budget, cands, sel, item);
    Extend(sel, item);
    WithoutTwice(cands, Ids(sel), {item.id});
    WithoutMember(Without(cands, Ids(sel)), {item.id}, item);
  }

  lemma NothingFits(value: Valuation, k: int, budget: int, cands: seq<Item>, sel: seq<Item>)
    requires GreedyPrefix(value, k, budget, cands, sel)
    requires var pool := Without(cands, Ids(sel));
             forall j | 0 <= j < |pool| :: Scored(value, budget, pool, sel)[j].None?
    ensures GreedyRun(value, k, budget, cands, sel)
  {
    hide GreedyPrefix, Without;
    var pool := Without(cands, Ids(sel));
    forall item | item in cands && item.id !in Ids(sel) ensures CostOf(sel) + item.tokenCount > budget {
      WithoutMember(cands, Ids(sel), item);
      var j :| 0 <= j < |pool| && pool[j] == item;
      assert Scored(value, budget, pool, sel)[j].None?;
    }
  }

  // ---------------------------------------------------------------- the two selectors' loops

  method FirstMax(pool: seq<Item>, scored: seq<Option<real>>) returns (best: Option<nat>)
    requires |scored| == |pool|
    ensures best.None? ==> forall j | 0 <= j < |pool| :: scored[j].None?
    ensures best.Some? ==> IsFirstMax(pool, scored, best.value)
  {
    best := None;
    for i := 0 to |pool|
      invariant best.None? ==> forall j | 0 <= j < i :: scored[j].None?
      invariant best.Some? ==> best.value < i && IsFirstMax(pool[..i], scored[..i], best.value)
    {
      if scored[i].Some? &&
         (best.None? || KeyLess(scored[best.value].value, pool[best.value], scored[i].value, pool[i]))
      {
        forall j | 0 <= j < i && scored[j].Some?
          ensures KeyLess(scored[j].value, pool[j], scored[i].value, pool[i])
          ensures !KeyLess(scored[i].value, pool[i], scored[j].value, pool[j])
        {
          assert pool[..i][j] == pool[j] && scored[..i][j] == scored[j];
          KeyTransitive(scored[i].value, pool[i], scored[best.value].value, pool[best.value],
                        scored[j].value, pool[j]);
        }
        LexTrichotomy(pool[i].id, pool[i].id);
        best := Some(i);
      }
    }
    assert pool[..|pool|] == pool && scored[..|pool|] == scored;
  }

  /** The running best scores are those of the selection. */
  ghost predicate Tracks(kind: Kind, best: map<string, real>, labels: seq<string>, sel: seq<Item>) {
    && (forall name :: name in best <==> name in labels)
    && (forall name | name in best :: best[name] == Best(kind, sel, name))
  }

  method ComputeGainSum(kind: Kind, labels: seq<string>, thresholds: Thresholds, item: Item,
                        best: map<string, real>, ghost sel: seq<Item>) returns (total: real)
    requires Tracks(kind, best, labels, sel)
    ensures total == GainSum(kind, labels, thresholds, item, sel)
  {
    total := 0.0;
    for i := 0 to |labels|
      invariant total == GainSum(kind, labels[..i], thresholds, item, sel)
    {
      assert labels[..i + 1][..i] == labels[..i];
      total := total + Gain(best[labels[i]], LabelScore(kind, item, labels[i]), thresholds.Of(labels[i]));
    }
    assert labels[..|labels|] == labels;
  }

  method UpdateBest(kind: Kind, best: map<string, real>, labels: seq<string>, item: Item, ghost sel: seq<Item>)
    returns (updated: map<string, real>)
    requires Tracks(kind, best, labels, sel)
    ensures Tracks(kind, updated, labels, sel + [item])
  {
    Extend(sel, item);
    updated := best;
    for i := 0 to |labels|
      invariant forall name :: name in updated <==> name in labels
      invariant forall name | name in labels ::
        updated[name] == if name in labels[..i] then Best(kind, sel + [item], name) else Best(kind, sel, name)
    {
      updated := updated[labels[i] := MaxReal(updated[labels[i]], LabelScore(kind, item, labels[i]))];
    }
  }

  ghost function ValueOf(o: Objective): Valuation {
    (item, sel) => Value(o, item, sel)
  }

  ghost function RoleValueOf(roles: seq<string>, thresholds: Thresholds): Valuation {
    (item, sel) => RoleValue(roles, thresholds, item, sel)
  }

  lemma StartRun(value: Valuation, k: int, budget: int, cands: seq<Item>)
    ensures Without(cands, Ids([])) == cands && CostOf([]) == 0
    ensures GreedyPrefix(value, k, budget, cands, [])
    ensures forall kind, name :: Best(kind, [], name) == 0.0
  {
    WithoutNothing(cands);
    assert Ids([]) == {};
  }

  /** Scores the pool for the selector over fields and roles. */
  method ScorePool(o: Objective, pool: seq<Item>, budget: int, cost: int,
                   fieldBest: map<string, real>, roleBest: map<string, real>, ghost sel: seq<Item>)
    returns (scored: seq<Option<real>>)
    requires cost == CostOf(sel) && Tracks(Field, fieldBest, o.fields, sel) && Tracks(Role, roleBest, o.roles, sel)
    ensures |scored| == |pool| && scored == Scored(ValueOf(o), budget, pool, sel)
  {
    scored := [];
    for i := 0 to |pool|
      invariant scored == Scored(ValueOf(o), budget, pool, sel)[..i]
    {
      if cost + pool[i].tokenCount <= budget {
        var fieldGain := ComputeGainSum(Field, o.fields, o.fieldThresholds, pool[i], fieldBest, sel);
        var roleGain := ComputeGainSum(Role, o.roles, o.roleThresholds, pool[i], roleBest, sel);
        hide GainSum, Best, Tracks, CostOf, Relevance, WeightedMean;
        var objective := WeightedMean(o.fieldWeight, fieldGain, |o.fields|)
          + WeightedMean(o.roleWeight, roleGain, |o.roles|) + Relevance(pool[i]);
        assert objective == Value(o, pool[i], sel);
        scored := scored + [Some(objective)];
      } else {
        scored := scored + [None];
      }
    }
  }

  /** The selector over fields and roles, which keeps two dictionaries of best scores. */
  method SelectByFieldsAndRoles(o: Objective, cands: seq<Item>, k: int, budget: int) returns (selected: seq<Item>)
    ensures GreedyRun(ValueOf(o), k, budget, cands, selected)
  {
    hide GreedyPrefix, Without, IsFirstMax, Scored, Best, Value, CostOf, Ids;
    selected := [];
    var remaining, cost := cands, 0;
    var fieldBest := map name | name in o.fields :: 0.0;
    var roleBest := map name | name in o.roles :: 0.0;
    StartRun(ValueOf(o), k, budget, cands);
    while remaining != [] && |selected| < k
      invariant remaining == Without(cands, Ids(selected)) && cost == CostOf(selected)
      invariant Tracks(Field, fieldBest, o.fields, selected) && Tracks(Role, roleBest, o.roles, selected)
      invariant GreedyPrefix(ValueOf(o), k, budget, cands, selected)
      decreases |remaining|
    {
      var scored := ScorePool(o, remaining, budget, cost, fieldBest, roleBest, selected);
      var best := FirstMax(remaining, scored);
      if best.None? {
        NothingFits(ValueOf(o), k, budget, cands, selected);
        return;
      }
      var item := remaining[best.value];
      StepRun(ValueOf(o), k, budget, cands, selected, item);
      Extend(selected, item);
      fieldBest := UpdateBest(Field, fieldBest, o.fields, item, selected);
      roleBest := UpdateBest(Role, roleBest, o.roles, item, selected);
      selected := selected + [item];
      remaining := Without(remaining, {item.id});
      cost := cost + item.tokenCount;
    }
    EmptyPoolEndsRun(ValueOf(o), k, budget, cands, selected);
  }

  lemma EmptyPoolEndsRun(value: Valuation, k: int, budget: int, cands: seq<Item>, sel: seq<Item>)
    requires GreedyPrefix(value, k, budget, cands, sel) && (Without(cands, Ids(sel)) == [] || |sel| >= k)
    ensures GreedyRun(value, k, budget, cands, sel)
  {
    if |sel| < k {
      NothingFits(value, k, budget, cands, sel);
    }
  }

  /** Scores the pool for the selector over roles alone. */
  method ScorePoolByRoles(keys: seq<string>, roles: seq<string>, thresholds: Thresholds, pool: seq<Item>,
                          budget: int, cost: int, roleBest: map<string, real>, ghost sel: seq<Item>)
    returns (scored: seq<Option<real>>)
    requires keys == Distinct(roles) && cost == CostOf(sel) && Tracks(Role, roleBest, keys, sel)
    ensures |scored| == |pool| && scored == Scored(RoleValueOf(roles, thresholds), budget, pool, sel)
  {
    scored := [];
    for i := 0 to |pool|
      invariant scored == Scored(RoleValueOf(roles, thresholds), budget, pool, sel)[..i]
    {
      if cost + pool[i].tokenCount > budget {
        scored := scored + [None];
        continue;
      }
      var gain := ComputeGainSum(Role, keys, thresholds, pool[i], roleBest, sel);
      hide GainSum, Best, Tracks, CostOf, Relevance, Distinct, WeightedMean;
      var objective := WeightedMean(2.0, gain, |keys|) + Relevance(pool[i]);
      assert objective == RoleValue(roles, thresholds, pool[i], sel);
      scored := scored + [Some(objective)];
    }
  }

  /** The selector over roles alone, which keeps one dictionary keyed by the distinct roles. */
  method SelectByRoles(roles: seq<string>, thresholds: Thresholds, cands: seq<Item>, k: int, budget: int)
    returns (selected: seq<Item>)
    ensures GreedyRun(RoleValueOf(roles, thresholds), k, budget, cands, selected)
  {
    hide GreedyPrefix, Without, IsFirstMax, Scored, Best, RoleValue, CostOf, Ids;
    ghost var value := RoleValueOf(roles, thresholds);
    selected := [];
    var remaining, total := cands, 0;
    var keys := Distinct(roles);
    var roleBest := map name | name in keys :: 0.0;
    StartRun(value, k, budget, cands);
    while remaining != [] && |selected| < k
      invariant remaining == Without(cands, Ids(selected)) && total == CostOf(selected)
      invariant Tracks(Role, roleBest, keys, selected)
      invariant GreedyPrefix(value, k, budget, cands, selected)
      decreases |remaining|
    {
      var scored := ScorePoolByRoles(keys, roles, thresholds, remaining, budget, total, roleBest, selected);
      var best := FirstMax(remaining, scored);
      if best.None? {
        NothingFits(value, k, budget, cands, selected);
        return;
      }
      var item := remaining[best.value];
      StepRun(value, k, budget, cands, selected, item);
      Extend(selected, item);
      roleBest := UpdateBest(Role, roleBest, keys, item, selected);
      selected := selected + [item];
      remaining := Without(remaining, {item.id});
      total := total + item.tokenCount;
    }
    EmptyPoolEndsRun(value, k, budget, cands, selected);
  }

  // ---------------------------------------------------------------- the selectors compared

  /** A greedy run is determined by its objective, and only by its values. */
  lemma {:induction false} RunsAgree(v: Valuation, w: Valuation, k: int, budget: int, cands: seq<Item>,
                                     a: seq<Item>, b: seq<Item>)
    requires forall item, sel :: v(item, sel) == w(item, sel)
    requires GreedyPrefix(v, k, budget, cands, a) && GreedyPrefix(w, k, budget, cands, b) && |a| == |b|
    ensures a == b
  {
    hide IsNext;
    if a != [] {
      var before := a[..|a| - 1];
      RunsAgree(v, w, k, budget, cands, before, b[..|b| - 1]);
      NextAgrees(v, w, budget, cands, before, a[|a| - 1], b[|b| - 1]);
      assert a == before + [a[|a| - 1]] && b == before + [b[|b| - 1]];
    }
  }

  lemma NextAgrees(v: Valuation, w: Valuation, budget: int, cands: seq<Item>, sel: seq<Item>, x: Item, y: Item)
    requires forall item, s :: v(item, s) == w(item, s)
    requires IsNext(v, budget, cands, sel, x) && IsNext(w, budget, cands, sel, y)
    ensures x == y
  {
    hide Without, KeyLess, CostOf;
    var pool := Without(cands, Ids(sel));
    assert Scored(v, budget, pool, sel) == Scored(w, budget, pool, sel);
    var i :| IsFirstMax(pool, Scored(v, budget, pool, sel), i) && pool[i] == x;
    var j :| IsFirstMax(pool, Scored(w, budget, pool, sel), j) && pool[j] == y;
    assert i == j;
  }

  /** Finished runs of one objective have the same length, hence are the same run. */
  lemma FinishedRunsAgree(v: Valuation, w: Valuation, k: int, budget: int, cands: seq<Item>,
                          a: seq<Item>, b: seq<Item>)
    requires forall item, sel :: v(item, sel) == w(item, sel)
    requires GreedyRun(v, k, budget, cands, a) && GreedyRun(w, k, budget, cands, b)
    ensures a == b
  {
    if |a| <= |b| {
      PrefixOfRun(w, k, budget, cands, b, |a|);
      RunsAgree(v, w, k, budget, cands, a, b[..|a|]);
      if |a| < |b| {
        NextIsFresh(w, budget, cands, a, b[|a|]);
      }
    } else {
      PrefixOfRun(v, k, budget, cands, a, |b|);
      RunsAgree(v, w, k, budget, cands, a[..|b|], b);
      NextIsFresh(v, budget, cands, b, a[|b|]);
    }
  }

  lemma {:induction false} PrefixOfRun(value: Valuation, k: int, budget: int, cands: seq<Item>, sel: seq<Item>, n: nat)
    requires GreedyPrefix(value, k, budget, cands, sel) && n <= |sel|
    ensures GreedyPrefix(value, k, budget, cands, sel[..n])
    ensures n < |sel| ==> n < k && IsNext(value, budget, cands, sel[..n], sel[n])
  {
    hide IsNext;
    if n < |sel| {
      var before := sel[..|sel| - 1];
      PrefixOfRun(value, k, budget, cands, before, n);
      assert before[..n] == sel[..n];
    } else {
      assert sel[..n] == sel;
    }
  }

  lemma {:induction false} DistinctOfNoRepeats(labels: seq<string>)
    requires NoRepeats(labels)
    ensures Distinct(labels) == labels
  {
    if labels != [] {
      var init := labels[..|labels| - 1];
      DistinctOfNoRepeats(init);
      assert labels == init + [labels[|labels| - 1]];
    }
  }

  /** With distinct roles, no fields, role weight two and the same thresholds, the two selectors
      return the same sequence for every pool, `k` and budget, ties and early exhaustion included. */
  lemma SelectorsAgree(o: Objective, cands: seq<Item>, k: int, budget: int, a: seq<Item>, b: seq<Item>)
    requires o.fields == [] && o.roleWeight == 2.0 && NoRepeats(o.roles)
    requires GreedyRun(ValueOf(o), k, budget, cands, a)
    requires GreedyRun(RoleValueOf(o.roles, o.roleThresholds), k, budget, cands, b)
    ensures a == b
  {
    hide GreedyRun;
    DistinctOfNoRepeats(o.roles);
    forall item, sel ensures Value(o, item, sel) == RoleValue(o.roles, o.roleThresholds, item, sel) {
      assert GainSum(Field, [], o.fieldThresholds, item, sel) == 0.0;
    }
    FinishedRunsAgree(ValueOf(o), RoleValueOf(o.roles, o.roleThresholds), k, budget, cands, a, b);
  }

  // ---------------------------------------------------------------- what decides a pick

  ghost predicate HasLabelScore(kind: Kind, item: Item, name: string, score: real) {
    match kind
    case Field => HasScore(item.fieldScores, name, score)
    case Role => HasScore(item.roleScores, name, score)
  }

  /** The best score of a label is the largest one in the selection, or zero when none is above zero. */
  lemma {:induction false} BestIsLargest(kind: Kind, sel: seq<Item>, name: string)
    ensures forall item, score | item in sel && HasLabelScore(kind, item, name, score) :: score <= Best(kind, sel, name)
    ensures Best(kind, sel, name) == 0.0
            || exists item :: item in sel && HasLabelScore(kind, item, name, Best(kind, sel, name))
  {
    hide HasScore;
    if sel != [] {
      var init, last := sel[..|sel| - 1], sel[|sel| - 1];
      BestIsLargest(kind, init, name);
      assert sel == init + [last];
      LabelScoreIs(kind, last, name, LabelScore(kind, last, name));
      forall item, score | item in sel && HasLabelScore(kind, item, name, score)
        ensures score <= Best(kind, sel, name)
      {
        LabelScoreIs(kind, item, name, score);
      }
    }
  }

  lemma LabelScoreIs(kind: Kind, item: Item, name: string, score: real)
    ensures HasLabelScore(kind, item, name, score) <==> score == LabelScore(kind, item, name)
  {
  }

  /** No label scores higher on the item than on the selection. */
  ghost predicate NothingNew(kind: Kind, labels: seq<string>, item: Item, sel: seq<Item>) {
    forall name, score | name in labels && HasLabelScore(kind, item, name, score) :: score <= Best(kind, sel, name)
  }

  /** The item brings a label over its threshold. */
  ghost predicate NewlyCovers(kind: Kind, name: string, thresholds: Thresholds, item: Item, sel: seq<Item>) {
    && Best(kind, sel, name) < thresholds.Of(name)
    && exists score :: HasLabelScore(kind, item, name, score) && score >= thresholds.Of(name)
  }

  lemma {:induction false} NothingNewGainsNothing(kind: Kind, labels: seq<string>, thresholds: Thresholds, item: Item,
                                                  sel: seq<Item>)
    requires NothingNew(kind, labels, item, sel)
    ensures GainSum(kind, labels, thresholds, item, sel) == 0.0
  {
    if labels != [] {
      var name := labels[|labels| - 1];
      assert name in labels;
      assert HasLabelScore(kind, item, name, LabelScore(kind, item, name));
      NothingNewGainsNothing(kind, labels[..|labels| - 1], thresholds, item, sel);
    }
  }

  lemma {:induction false} GainsAtLeast(kind: Kind, labels: seq<string>, thresholds: Thresholds, item: Item,
                                        sel: seq<Item>, name: string)
    ensures GainSum(kind, labels, thresholds, item, sel) >= 0.0
    ensures name in labels && NewlyCovers(kind, name, thresholds, item, sel)
            ==> GainSum(kind, labels, thresholds, item, sel) >= 1.0
  {
    hide Best;
    if labels != [] {
      var init, last := labels[..|labels| - 1], labels[|labels| - 1];
      assert labels == init + [last];
      GainsAtLeast(kind, init, thresholds, item, sel, name);
      if name == last && NewlyCovers(kind, name, thresholds, item, sel) {
        var score :| HasLabelScore(kind, item, name, score) && score >= thresholds.Of(name);
        assert Gain(Best(kind, sel, name), score, thresholds.Of(name)) == 1.0;
      }
    }
  }

  lemma WeightedMeanOf(weight: real, total: real, n: nat)
    requires weight >= 0.0 && total >= 0.0
    ensures WeightedMean(weight, total, n) >= 0.0
    ensures total == 0.0 ==> WeightedMean(weight, total, n) == 0.0
    ensures total >= 1.0 && n >= 1 ==> WeightedMean(weight, total, n) >= weight / n as real
  {
    var d := MaxInt(1, n) as real;
    WeightedMeanMonotone(weight, 0.0, total, n);
    assert 0.0 / d == 0.0;
    if total >= 1.0 && n >= 1 {
      WeightedMeanMonotone(weight, 1.0, total, n);
      assert weight * (1.0 / d) == weight / d;
    }
  }

  /** An item that brings nothing new is picked only over items of no higher relevance, and of no later identifier
      when the relevances are equal. */
  lemma MostRelevantIsPicked(o: Objective, budget: int, cands: seq<Item>, sel: seq<Item>, item: Item, other: Item,
                             a: real, b: real)
    requires o.fieldWeight >= 0.0 && o.roleWeight >= 0.0 && IsNext(ValueOf(o), budget, cands, sel, item)
    requires NothingNew(Field, o.fields, item, sel) && NothingNew(Role, o.roles, item, sel)
    requires other in cands && other.id !in Ids(sel) && CostOf(sel) + other.tokenCount <= budget
    requires HasScore(item.scores, "cross_encoder", a) && HasScore(other.scores, "cross_encoder", b)
    ensures a >= b && (a == b ==> !LexLess(item.id, other.id))
  {
    hide Without, Best, CostOf, Ids, IsNext;
    NextIsLargest(ValueOf(o), budget, cands, sel, item, other);
    NothingNewGainsNothing(Field, o.fields, o.fieldThresholds, item, sel);
    NothingNewGainsNothing(Role, o.roles, o.roleThresholds, item, sel);
    GainsAtLeast(Field, o.fields, o.fieldThresholds, other, sel, "");
    GainsAtLeast(Role, o.roles, o.roleThresholds, other, sel, "");
    hide GainSum, WeightedMean;
    WeightedMeanOf(o.fieldWeight, 0.0, |o.fields|);
    WeightedMeanOf(o.roleWeight, 0.0, |o.roles|);
    WeightedMeanOf(o.fieldWeight, GainSum(Field, o.fields, o.fieldThresholds, other, sel), |o.fields|);
    WeightedMeanOf(o.roleWeight, GainSum(Role, o.roles, o.roleThresholds, other, sel), |o.roles|);
  }

  /** To be picked before an item that newly covers a field, one that brings nothing new must be more relevant by
      that field's share of the field weight; likewise for roles. */
  lemma CoverageOutweighsRelevance(o: Objective, budget: int, cands: seq<Item>, sel: seq<Item>, item: Item, other: Item,
                                   a: real, b: real, name: string)
    requires o.fieldWeight >= 0.0 && o.roleWeight >= 0.0 && IsNext(ValueOf(o), budget, cands, sel, item)
    requires NothingNew(Field, o.fields, item, sel) && NothingNew(Role, o.roles, item, sel)
    requires other in cands && other.id !in Ids(sel) && CostOf(sel) + other.tokenCount <= budget
    requires HasScore(item.scores, "cross_encoder", a) && HasScore(other.scores, "cross_encoder", b)
    ensures name in o.fields && NewlyCovers(Field, name, o.fieldThresholds, other, sel)
            ==> a >= b + o.fieldWeight / |o.fields| as real
    ensures name in o.roles && NewlyCovers(Role, name, o.roleThresholds, other, sel)
            ==> a >= b + o.roleWeight / |o.roles| as real
  {
    hide Without, Best, CostOf, Ids, IsNext;
    NextIsLargest(ValueOf(o), budget, cands, sel, item, other);
    NothingNewGainsNothing(Field, o.fields, o.fieldThresholds, item, sel);
    NothingNewGainsNothing(Role, o.roles, o.roleThresholds, item, sel);
    GainsAtLeast(Field, o.fields, o.fieldThresholds, other, sel, name);
    GainsAtLeast(Role, o.roles, o.roleThresholds, other, sel, name);
    hide GainSum, WeightedMean, NewlyCovers;
    WeightedMeanOf(o.fieldWeight, 0.0, |o.fields|);
    WeightedMeanOf(o.roleWeight, 0.0, |o.roles|);
    WeightedMeanOf(o.fieldWeight, GainSum(Field, o.fields, o.fieldThresholds, other, sel), |o.fields|);
    WeightedMeanOf(o.roleWeight, GainSum(Role, o.roles, o.roleThresholds, other, sel), |o.roles|);
  }

  predicate CostsNonNegative(cands: seq<Item>) {
    forall item | item in cands :: item.tokenCount >= 0
  }

  /** Any run picks distinct items of the pool, at most `k`, and pays at most the budget. */
  lemma {:induction false} RunWithinLimits(value: Valuation, k: int, budget: int, cands: seq<Item>, sel: seq<Item>)
    requires GreedyPrefix(value, k, budget, cands, sel)
    ensures |sel| <= MaxInt(0, k)
    ensures forall item | item in sel :: item in cands
    ensures forall i, j | 0 <= i < j < |sel| :: sel[i].id != sel[j].id
    ensures sel != [] ==> CostOf(sel) <= budget
    ensures CostsNonNegative(cands) ==> CostOf(sel) >= 0
  {
    hide IsNext;
    if sel != [] {
      var before, last := sel[..|sel| - 1], sel[|sel| - 1];
      RunWithinLimits(value, k, budget, cands, before);
      NextIsFresh(value, budget, cands, before, last);
      assert sel == before + [last];
      forall i | 0 <= i < |before| ensures sel[i].id != last.id {
        assert before[i].id in Ids(before);
      }
    }
  }

  // ---------------------------------------------------------------- diminishing returns

  /** Thresholds are positive and no score exceeds its threshold by more than four; scores in
      [0, 1], which the scorers produce, always satisfy the second part. */
  predicate Calibrated(kind: Kind, labels: seq<string>, thresholds: Thresholds, item: Item) {
    forall name | name in labels ::
      thresholds.Of(name) > 0.0 && LabelScore(kind, item, name) <= thresholds.Of(name) + 4.0
  }

  lemma {:induction false} GainSumFalls(kind: Kind, labels: seq<string>, thresholds: Thresholds,
                                        item: Item, sel: seq<Item>, s: Item)
    requires Calibrated(kind, labels, thresholds, item)
    ensures GainSum(kind, labels, thresholds, item, sel + [s]) <= GainSum(kind, labels, thresholds, item, sel)
  {
    if labels != [] {
      var name := labels[|labels| - 1];
      GainSumFalls(kind, labels[..|labels| - 1], thresholds, item, sel, s);
      Extend(sel, s);
      GainAntitoneIff(LabelScore(kind, item, name), thresholds.Of(name));
      assert name in labels && Best(kind, sel, name) <= Best(kind, sel + [s], name);
    }
  }

  predicate CalibratedFor(o: Objective, item: Item) {
    Calibrated(Field, o.fields, o.fieldThresholds, item) && Calibrated(Role, o.roles, o.roleThresholds, item)
  }

  lemma WeightedMeanMonotone(weight: real, a: real, b: real, n: nat)
    requires weight >= 0.0 && a <= b
    ensures WeightedMean(weight, a, n) <= WeightedMean(weight, b, n)
  {
    var d := MaxInt(1, n) as real;
    assert a / d <= b / d;
    assert weight * (b / d - a / d) >= 0.0;
  }

  lemma ValueFalls(o: Objective, item: Item, sel: seq<Item>, s: Item)
    requires o.fieldWeight >= 0.0 && o.roleWeight >= 0.0 && CalibratedFor(o, item)
    ensures Value(o, item, sel + [s]) <= Value(o, item, sel)
  {
    GainSumFalls(Field, o.fields, o.fieldThresholds, item, sel, s);
    GainSumFalls(Role, o.roles, o.roleThresholds, item, sel, s);
    hide GainSum, Relevance, WeightedMean;
    WeightedMeanMonotone(o.fieldWeight, GainSum(Field, o.fields, o.fieldThresholds, item, sel + [s]),
                         GainSum(Field, o.fields, o.fieldThresholds, item, sel), |o.fields|);
    WeightedMeanMonotone(o.roleWeight, GainSum(Role, o.roles, o.roleThresholds, item, sel + [s]),
                         GainSum(Role, o.roles, o.roleThresholds, item, sel), |o.roles|);
  }

  lemma AdjacentObjectives(o: Objective, budget: int, cands: seq<Item>, before: seq<Item>, x: Item, y: Item)
    requires o.fieldWeight >= 0.0 && o.roleWeight >= 0.0
    requires CostsNonNegative(cands) && forall item | item in cands :: CalibratedFor(o, item)
    requires IsNext(ValueOf(o), budget, cands, before, x) && IsNext(ValueOf(o), budget, cands, before + [x], y)
    ensures Value(o, y, before + [x]) <= Value(o, x, before)
  {
    NextIsFresh(ValueOf(o), budget, cands, before, x);
    NextIsFresh(ValueOf(o), budget, cands, before + [x], y);
    Extend(before, x);
    hide Value, IsNext, CalibratedFor, CostOf, Ids;
    NextIsLargest(ValueOf(o), budget, cands, before, x, y);
    ValueFalls(o, y, before, x);
  }

  /** The objective of the picks never rises along a run. */
  lemma {:induction false} PickedObjectivesNeverRise(o: Objective, k: int, budget: int, cands: seq<Item>,
                                                     sel: seq<Item>, i: nat, j: nat)
    requires o.fieldWeight >= 0.0 && o.roleWeight >= 0.0
    requires CostsNonNegative(cands) && forall item | item in cands :: CalibratedFor(o, item)
    requires GreedyPrefix(ValueOf(o), k, budget, cands, sel) && i <= j < |sel|
    ensures Value(o, sel[j], sel[..j]) <= Value(o, sel[i], sel[..i])
    decreases j - i
  {
    hide *;
    if i < j {
      PickedObjectivesNeverRise(o, k, budget, cands, sel, i, j - 1);
      PrefixOfRun(ValueOf(o), k, budget, cands, sel, j - 1);
      PrefixOfRun(ValueOf(o), k, budget, cands, sel, j);
      assert sel[..j] == sel[..j - 1] + [sel[j - 1]];
      AdjacentObjectives(o, budget, cands, sel[..j - 1], sel[j - 1], sel[j]);
    }
  }

  // ---------------------------------------------------------------- coverage is counted once

  /** How often the label received the full credit of 1.0 while the selection was built. */
  function Credits(kind: Kind, name: string, threshold: real, sel: seq<Item>): nat {
    if sel == [] then 0
    else
      var init := sel[..|sel| - 1];
      Credits(kind, name, threshold, init)
      + if Best(kind, init, name) < threshold <= Best(kind, sel, name) then 1 else 0
  }

  /** A label gets its full credit exactly once if it ends covered, and never otherwise. */
  lemma {:induction false} CreditOnceIffCovered(kind: Kind, name: string, threshold: real, sel: seq<Item>)
    requires threshold > 0.0
    ensures Credits(kind, name, threshold, sel) == if Best(kind, sel, name) >= threshold then 1 else 0
  {
    if sel != [] {
      CreditOnceIffCovered(kind, name, threshold, sel[..|sel| - 1]);
    }
  }

  /** All that a label has contributed to the objectives of the picks. */
  function TotalGain(kind: Kind, name: string, threshold: real, sel: seq<Item>): real {
    if sel == [] then 0.0
    else
      var init := sel[..|sel| - 1];
      TotalGain(kind, name, threshold, init)
      + Gain(Best(kind, init, name), LabelScore(kind, sel[|sel| - 1], name), threshold)
  }

  /** Over a whole run a label is paid one for being covered and a quarter of every other rise of its best score. */
  lemma {:induction false} LabelIsPaidOnce(kind: Kind, name: string, threshold: real, sel: seq<Item>)
    returns (n: nat)
    requires threshold > 0.0
    ensures Best(kind, sel, name) < threshold ==> TotalGain(kind, name, threshold, sel) == Best(kind, sel, name) / 4.0
    ensures Best(kind, sel, name) >= threshold ==>
      && n < |sel| && Best(kind, sel[..n], name) < threshold <= Best(kind, sel[..n + 1], name)
      && TotalGain(kind, name, threshold, sel)
         == 1.0 + (Best(kind, sel[..n], name) + Best(kind, sel, name) - Best(kind, sel[..n + 1], name)) / 4.0
  {
    hide LabelScore;
    n := 0;
    if sel != [] {
      var init := sel[..|sel| - 1];
      n := LabelIsPaidOnce(kind, name, threshold, init);
      if Best(kind, init, name) < threshold {
        n := |init|;
        assert sel[..n + 1] == sel;
      } else {
        assert init[..n] == sel[..n] && init[..n + 1] == sel[..n + 1];
      }
    }
  }

  /** The maximum the scorers recompute from scratch; zero for an empty selection only. */
  function ScratchMax(kind: Kind, sel: seq<Item>, name: string): real {
    if sel == [] then 0.0
    else if |sel| == 1 then LabelScore(kind, sel[0], name)
    else MaxReal(ScratchMax(kind, sel[..|sel| - 1], name), LabelScore(kind, sel[|sel| - 1], name))
  }

  /** The running best is the recomputed maximum, floored at zero. */
  lemma {:induction false} BestIsFlooredMax(kind: Kind, sel: seq<Item>, name: string)
    ensures Best(kind, sel, name) == MaxReal(0.0, ScratchMax(kind, sel, name))
  {
    if |sel| > 1 {
      BestIsFlooredMax(kind, sel[..|sel| - 1], name);
    } else if |sel| == 1 {
      assert sel[..0] == [];
    }
  }

  function TotalCredits(kind: Kind, labels: seq<string>, threshold: real, sel: seq<Item>): nat {
    if labels == [] then 0
    else TotalCredits(kind, labels[..|labels| - 1], threshold, sel)
         + Credits(kind, labels[|labels| - 1], threshold, sel)
  }

  /** The coverage the evaluation reports is the share of labels that received their full credit
      during the selection: the scorer never sees the selector's dictionaries. */
  method ReportedCoverage(kind: Kind, required: seq<string>, selected: seq<Item>, threshold: real)
    returns (coverage: real)
    requires threshold > 0.0
    ensures required == [] ==> coverage == 1.0
    ensures required != [] ==>
              coverage == TotalCredits(kind, required, threshold, selected) as real / |required| as real
  {
    if required == [] {
      return 1.0;
    }
    var covered := 0;
    for i := 0 to |required|
      invariant covered == TotalCredits(kind, required[..i], threshold, selected) <= i
    {
      assert required[..i + 1][..i] == required[..i];
      var best := ComputeMax(kind, selected, required[i]);
      BestIsFlooredMax(kind, selected, required[i]);
      CreditOnceIffCovered(kind, required[i], threshold, selected);
      if best >= threshold {
        covered := covered + 1;
      }
    }
    assert required[..|required|] == required;
    coverage := covered as real / |required| as real;
  }

  method ComputeMax(kind: Kind, selected: seq<Item>, name: string) returns (best: real)
    ensures best == ScratchMax(kind, selected, name)
  {
    if selected == [] {
      return 0.0;
    }
    best := LabelScore(kind, selected[0], name);
    for i := 1 to |selected|
      invariant best == ScratchMax(kind, selected[..i], name)
    {
      assert selected[..i + 1][..i] == selected[..i];
      best := MaxReal(best, LabelScore(kind, selected[i], name));
    }
    assert selected[..|selected|] == selected;
  }
}
