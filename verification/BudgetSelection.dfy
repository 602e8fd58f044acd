/** Budgeted top-k and two-phase selection, and the sensitivity report built on them
    (flood_system/frc_public_evidence.py, flood_system/frc_housing_ablation.py). */
module BudgetSelection {
  import opened Ordering
  import opened CoverageSelection

  // ---------------------------------------------------------------- taking a ranked list

  /** Scan the list, keep what still fits, and stop once `k` items are kept; the test comes after
      the append, so `k <= 1` keeps at most one. */
  function Take(cands: seq<Item>, k: int, budget: int): seq<Item> {
    if cands == [] then []
    else if cands[0].tokenCount > budget then Take(cands[1..], k, budget)
    else if k <= 1 then [cands[0]]
    else [cands[0]] + Take(cands[1..], k - 1, budget - cands[0].tokenCount)
  }

  method TakeWithBudget(cands: seq<Item>, k: int, budget: int) returns (selected: seq<Item>)
    ensures selected == Take(cands, k, budget)
  {
    selected := [];
    var total := 0;
    for i := 0 to |cands|
      invariant |selected| < MaxInt(1, k)
      invariant selected + Take(cands[i..], k - |selected|, budget - total) == Take(cands, k, budget)
    {
      var cost := cands[i].tokenCount;
      if total + cost > budget {
        continue;
      }
      selected := selected + [cands[i]];
      total := total + cost;
      if |selected| >= k {
        return;
      }
    }
  }

  /** The housing variant stops on `==`, so a `topK` below one never stops it. */
  method TakeExactly(cands: seq<Item>, topK: int, budget: int) returns (selected: seq<Item>)
    ensures selected == Take(cands, if topK >= 1 then topK else |cands| + 1, budget)
  {
    selected := [];
    var total := 0;
    ghost var k := if topK >= 1 then topK else |cands| + 1;
    for i := 0 to |cands|
      invariant |selected| <= i && |selected| < k
      invariant selected + Take(cands[i..], k - |selected|, budget - total) == Take(cands, k, budget)
    {
      var cost := cands[i].tokenCount;
      if total + cost > budget {
        continue;
      }
      selected := selected + [cands[i]];
      total := total + cost;
      if |selected| == topK {
        return;
      }
    }
  }

  lemma {:induction false} CostSplit(a: seq<Item>, b: seq<Item>)
    ensures CostOf(a + b) == CostOf(a) + CostOf(b)
  {
    if b == [] {
      assert a + b == a;
    } else {
      CostSplit(a, b[..|b| - 1]);
      assert (a + b)[..|a + b| - 1] == a + b[..|b| - 1];
    }
  }

  predicate DistinctIds(items: seq<Item>) {
    forall i, j | 0 <= i < j < |items| :: items[i].id != items[j].id
  }

  /** Nothing unselected would still fit, unless the selection is full. */
  predicate Maximal(cands: seq<Item>, sel: seq<Item>, k: int, budget: int) {
    |sel| >= k || forall item | item in cands && item !in sel :: CostOf(sel) + item.tokenCount > budget
  }

  lemma {:induction false} TakeIsSubsequence(cands: seq<Item>, k: int, budget: int)
    ensures |Take(cands, k, budget)| <= MaxInt(1, k)
    ensures forall item | item in Take(cands, k, budget) :: item in cands
    ensures DistinctIds(cands) ==> DistinctIds(Take(cands, k, budget))
  {
    if cands != [] {
      var first, rest := cands[0], cands[1..];
      if first.tokenCount > budget {
        TakeIsSubsequence(rest, k, budget);
      } else if k > 1 {
        TakeIsSubsequence(rest, k - 1, budget - first.tokenCount);
        var tail := Take(rest, k - 1, budget - first.tokenCount);
        if DistinctIds(cands) {
          forall x | x in tail ensures x.id != first.id {
            var m :| 0 <= m < |rest| && rest[m] == x;
            assert cands[m + 1] == x;
          }
        }
      }
    }
  }

  lemma {:induction false} TakeWithinBudget(cands: seq<Item>, k: int, budget: int)
    requires CostsNonNegative(cands)
    ensures 0 <= CostOf(Take(cands, k, budget)) <= MaxInt(0, budget)
  {
    if cands != [] {
      var first, rest := cands[0], cands[1..];
      assert CostsNonNegative(rest);
      if first.tokenCount > budget {
        TakeWithinBudget(rest, k, budget);
      } else if k > 1 {
        TakeWithinBudget(rest, k - 1, budget - first.tokenCount);
        var tail := Take(rest, k - 1, budget - first.tokenCount);
        CostSplit([first], tail);
      } else {
        CostSplit([], [first]);
      }
    }
  }

  lemma {:induction false} TakeIsMaximal(cands: seq<Item>, k: int, budget: int)
    requires CostsNonNegative(cands)
    ensures Maximal(cands, Take(cands, k, budget), k, budget)
  {
    if cands != [] {
      var first, rest := cands[0], cands[1..];
      assert CostsNonNegative(rest);
      if first.tokenCount > budget {
        TakeIsMaximal(rest, k, budget);
        TakeWithinBudget(rest, k, budget);
      } else if k > 1 {
        TakeIsMaximal(rest, k - 1, budget - first.tokenCount);
        var tail := Take(rest, k - 1, budget - first.tokenCount);
        CostSplit([first], tail);
      }
    }
  }

  /** The list is scanned in order: a candidate is kept exactly when there is room for one more and it fits what
      the earlier ones have left of the budget. */
  lemma {:induction false} TakeInOrder(cands: seq<Item>, k: int, budget: int, i: nat)
    requires i < |cands|
    ensures var before := Take(cands[..i], k, budget);
      Take(cands[..i + 1], k, budget)
      == if |before| < MaxInt(1, k) && CostOf(before) + cands[i].tokenCount <= budget then before + [cands[i]] else before
  {
    var first, rest := cands[0], cands[1..];
    assert cands[..i + 1][1..] == rest[..i];
    if i > 0 {
      assert cands[..i][1..] == rest[..i - 1];
      if first.tokenCount > budget {
        TakeInOrder(rest, k, budget, i - 1);
      } else if k > 1 {
        TakeInOrder(rest, k - 1, budget - first.tokenCount, i - 1);
        CostSplit([first], Take(rest[..i - 1], k - 1, budget - first.tokenCount));
      }
    }
  }

  // ---------------------------------------------------------------- rankings

  /** `(-score, id)` order, as `sorted` uses it. */
  predicate RanksBefore(name: string, a: Item, b: Item) {
    var sa, sb := Get(a.scores, name), Get(b.scores, name);
    sa > sb || (sa == sb && LexLess(a.id, b.id))
  }

  function Insert(name: string, item: Item, ranked: seq<Item>): seq<Item> {
    if ranked == [] || RanksBefore(name, item, ranked[0]) then [item] + ranked
    else [ranked[0]] + Insert(name, item, ranked[1..])
  }

  /** A stable sort by descending score and ascending id. */
  function Ranked(name: string, items: seq<Item>): seq<Item> {
    if items == [] then []
    else Insert(name, items[|items| - 1], Ranked(name, items[..|items| - 1]))
  }

  lemma {:induction false} InsertIsPermutation(name: string, item: Item, ranked: seq<Item>)
    ensures multiset(Insert(name, item, ranked)) == multiset(ranked) + multiset{item}
  {
    if ranked != [] && !RanksBefore(name, item, ranked[0]) {
      InsertIsPermutation(name, item, ranked[1..]);
      assert ranked == [ranked[0]] + ranked[1..];
    }
  }

  lemma {:induction false} RankedIsPermutation(name: string, items: seq<Item>)
    ensures multiset(Ranked(name, items)) == multiset(items)
  {
    if items != [] {
      var init, last := items[..|items| - 1], items[|items| - 1];
      RankedIsPermutation(name, init);
      InsertIsPermutation(name, last, Ranked(name, init));
      assert items == init + [last];
    }
  }

  predicate SortedBy(name: string, items: seq<Item>) {
    forall i, j | 0 <= i < j < |items| :: !RanksBefore(name, items[j], items[i])
  }

  lemma RanksTransitive(name: string, a: Item, b: Item, c: Item)
    requires !RanksBefore(name, b, a) && !RanksBefore(name, c, b)
    ensures !RanksBefore(name, c, a)
  {
    LexTrichotomy(a.id, b.id);
    LexTrichotomy(b.id, c.id);
    LexTrichotomy(a.id, c.id);
    if LexLess(a.id, b.id) && LexLess(b.id, c.id) {
      LexTransitive(a.id, b.id, c.id);
    }
  }

  lemma {:induction false} InsertKeepsSorted(name: string, item: Item, ranked: seq<Item>)
    requires SortedBy(name, ranked)
    ensures SortedBy(name, Insert(name, item, ranked))
  {
    if ranked != [] {
      LexTrichotomy(item.id, ranked[0].id);
      if RanksBefore(name, item, ranked[0]) {
        forall j | 0 <= j < |ranked| ensures !RanksBefore(name, ranked[j], item) {
          LexTrichotomy(ranked[0].id, ranked[0].id);
          RanksTransitive(name, item, ranked[0], ranked[j]);
        }
      } else {
        InsertKeepsSorted(name, item, ranked[1..]);
        InsertIsPermutation(name, item, ranked[1..]);
        var tail := Insert(name, item, ranked[1..]);
        forall x | x in tail ensures !RanksBefore(name, x, ranked[0]) {
          assert x in multiset(tail);
          assert x == item || x in ranked[1..];
        }
      }
    }
  }

  lemma {:induction false} RankedIsSorted(name: string, items: seq<Item>)
    ensures SortedBy(name, Ranked(name, items))
  {
    if items != [] {
      RankedIsSorted(name, items[..|items| - 1]);
      InsertKeepsSorted(name, items[|items| - 1], Ranked(name, items[..|items| - 1]));
    }
  }

  /** Of two ranked items the earlier has the higher score, or the same score and no later identifier. */
  lemma HighestComesFirst(name: string, items: seq<Item>, i: nat, j: nat, a: real, b: real)
    requires i < j < |Ranked(name, items)|
    requires HasScore(Ranked(name, items)[i].scores, name, a) && HasScore(Ranked(name, items)[j].scores, name, b)
    ensures a > b || (a == b && !LexLess(Ranked(name, items)[j].id, Ranked(name, items)[i].id))
  {
    RankedIsSorted(name, items);
  }

  lemma PermutationFacts(a: seq<Item>, b: seq<Item>)
    requires multiset(a) == multiset(b)
    ensures forall item :: item in a <==> item in b
    ensures CostsNonNegative(a) ==> CostsNonNegative(b)
    ensures DistinctIds(a) ==> DistinctIds(b)
  {
    forall item ensures item in a <==> item in b {
      assert item in a <==> item in multiset(a);
      assert item in b <==> item in multiset(b);
    }
    if DistinctIds(a) {
      forall i, j | 0 <= i < j < |b| ensures b[i].id != b[j].id {
        if b[i].id == b[j].id {
          assert b[i] in a && b[j] in a;
          assert b[i] == b[j];
          DoubleMeansTwice(b, i, j);
          var m :| 0 <= m < |a| && a[m] == b[i];
          OnceInDistinct(a, m);
        }
      }
    }
  }

  lemma DoubleMeansTwice(b: seq<Item>, i: nat, j: nat)
    requires i < j < |b| && b[i] == b[j]
    ensures multiset(b)[b[i]] >= 2
  {
    assert b == b[..j] + [b[j]] + b[j + 1..];
    assert b[..j][i] == b[i];
    assert b[i] in multiset(b[..j]);
  }

  lemma OnceInDistinct(a: seq<Item>, m: nat)
    requires m < |a| && DistinctIds(a)
    ensures multiset(a)[a[m]] == 1
  {
    assert a == a[..m] + [a[m]] + a[m + 1..];
    assert a[m] !in a[..m] && a[m] !in a[m + 1..];
  }

  // ---------------------------------------------------------------- the two-phase proxy

  /** The largest (role score, relevance, id) wins. */
  predicate RoleKeyLess(role: string, a: Item, b: Item) {
    var ra, rb := LabelScore(Role, a, role), LabelScore(Role, b, role);
    ra < rb || (ra == rb && (Relevance(a) < Relevance(b)
      || (Relevance(a) == Relevance(b) && LexLess(a.id, b.id))))
  }

  /** The first item with the largest key among those whose id is not taken yet. */
  function BestForRole(role: string, cands: seq<Item>, taken: set<string>): (best: Option<Item>)
    ensures best.Some? ==> best.value in cands && best.value.id !in taken
    ensures best.None? ==> forall item | item in cands :: item.id in taken
  {
    if cands == [] then None
    else
      var earlier, last := BestForRole(role, cands[..|cands| - 1], taken), cands[|cands| - 1];
      assert cands == cands[..|cands| - 1] + [last];
      if last.id in taken then earlier
      else if earlier.None? || RoleKeyLess(role, earlier.value, last) then Some(last)
      else earlier
  }

  /** `max` over the eligible items is really a maximum. */
  lemma {:induction false} BestForRoleIsLargest(role: string, cands: seq<Item>, taken: set<string>, item: Item)
    requires item in cands && item.id !in taken
    ensures BestForRole(role, cands, taken).Some?
    ensures !RoleKeyLess(role, BestForRole(role, cands, taken).value, item)
  {
    var init, last := cands[..|cands| - 1], cands[|cands| - 1];
    assert cands == init + [last];
    LexTrichotomy(item.id, item.id);
    if item in init {
      BestForRoleIsLargest(role, init, taken, item);
      var best := BestForRole(role, init, taken).value;
      if last.id !in taken && RoleKeyLess(role, best, last) {
        RoleKeyTransitive(role, item, best, last);
      }
    } else if BestForRole(role, init, taken).Some? {
      var best := BestForRole(role, init, taken).value;
      LexTrichotomy(best.id, last.id);
    }
  }

  lemma RoleKeyTransitive(role: string, a: Item, b: Item, c: Item)
    requires !RoleKeyLess(role, b, a) && RoleKeyLess(role, b, c)
    ensures !RoleKeyLess(role, c, a)
  {
    LexTrichotomy(a.id, b.id);
    LexTrichotomy(b.id, c.id);
    LexTrichotomy(a.id, c.id);
    if LexLess(a.id, b.id) && LexLess(b.id, c.id) {
      LexTransitive(a.id, b.id, c.id);
    }
  }

  /** What the role phase appends to `sel`: for each role in turn the best item not yet taken, if it
      fits; the phase ends when no item is left or `k` items are selected. */
  function RolePhase(roles: seq<string>, cands: seq<Item>, k: int, budget: int, sel: seq<Item>): seq<Item> {
    if roles == [] then sel
    else
      var best := BestForRole(roles[0], cands, Ids(sel));
      if best.None? then sel
      else if CostOf(sel) + best.value.tokenCount > budget then RolePhase(roles[1..], cands, k, budget, sel)
      else if |sel| + 1 >= k then sel + [best.value]
      else RolePhase(roles[1..], cands, k, budget, sel + [best.value])
  }

  function RemainingRanked(cands: seq<Item>, sel: seq<Item>): seq<Item> {
    Ranked("cross_encoder", Without(cands, Ids(sel)))
  }

  function Proxy(roles: seq<string>, cands: seq<Item>, k: int, budget: int): seq<Item> {
    var first := RolePhase(roles, cands, k, budget, []);
    if |first| >= k && first != [] then first
    else first + Take(RemainingRanked(cands, first), k - |first|, MaxInt(0, budget - CostOf(first)))
  }

  lemma NothingSelected()
    ensures CostOf([]) == 0 && Ids([]) == {}
  {
    assert Ids([]) == {};
  }

  method SelectByProxy(roles: seq<string>, cands: seq<Item>, k: int, budget: int) returns (selected: seq<Item>)
    ensures selected == Proxy(roles, cands, k, budget)
  {
    hide Ranked, Without, BestForRole, Take, CostOf, Ids, Best, RoleKeyLess;
    selected := [];
    NothingSelected();
    var selectedIds: set<string>, total := {}, 0;
    for i := 0 to |roles|
      invariant selectedIds == Ids(selected) && total == CostOf(selected)
      invariant selected == [] || |selected| < k
      invariant RolePhase(roles[i..], cands, k, budget, selected) == RolePhase(roles, cands, k, budget, [])
    {
      var best := LargestForRole(roles[i], cands, selectedIds);
      if best.None? {
        break;
      }
      var cost := best.value.tokenCount;
      if total + cost > budget {
        continue;
      }
      Extend(selected, best.value);
      selected := selected + [best.value];
      selectedIds := selectedIds + {best.value.id};
      total := total + cost;
      if |selected| >= k {
        return;
      }
    }
    var fill := Ranked("cross_encoder", Without(cands, selectedIds));
    var more := TakeWithBudget(fill, k - |selected|, MaxInt(0, budget - total));
    selected := selected + more;
  }

  method LargestForRole(role: string, cands: seq<Item>, taken: set<string>) returns (best: Option<Item>)
    ensures best == BestForRole(role, cands, taken)
  {
    best := None;
    for i := 0 to |cands|
      invariant best == BestForRole(role, cands[..i], taken)
    {
      assert cands[..i + 1][..i] == cands[..i];
      if cands[i].id !in taken && (best.None? || RoleKeyLess(role, best.value, cands[i])) {
        best := Some(cands[i]);
      }
    }
    assert cands[..|cands|] == cands;
  }

  /** The item has the higher score for the role; equal ones are told apart by relevance, then by identifier. */
  ghost predicate ServesBetter(role: string, x: Item, y: Item) {
    forall a, b, u, v | HasScore(x.roleScores, role, a) && HasScore(y.roleScores, role, b)
      && HasScore(x.scores, "cross_encoder", u) && HasScore(y.scores, "cross_encoder", v) ::
      a > b || (a == b && (u > v || (u == v && LexLess(y.id, x.id))))
  }

  lemma ServesBetterIs(role: string, x: Item, y: Item)
    ensures ServesBetter(role, x, y) <==> RoleKeyLess(role, y, x)
  {
    assert HasScore(x.roleScores, role, LabelScore(Role, x, role)) && HasScore(y.roleScores, role, LabelScore(Role, y, role));
    assert HasScore(x.scores, "cross_encoder", Relevance(x)) && HasScore(y.scores, "cross_encoder", Relevance(y));
  }

  lemma NobodyLeft(roles: seq<string>, cands: seq<Item>, k: int, budget: int, sel: seq<Item>)
    requires forall item | item in cands :: item.id in Ids(sel)
    ensures RolePhase(roles, cands, k, budget, sel) == sel
  {
  }

  /** The phase can be cut anywhere before it is full. */
  lemma {:induction false} RolePhaseSplit(roles: seq<string>, cands: seq<Item>, k: int, budget: int, sel: seq<Item>, i: nat)
    requires i <= |roles|
    requires var before := RolePhase(roles[..i], cands, k, budget, sel); before == sel || |before| < k
    ensures RolePhase(roles, cands, k, budget, sel)
         == RolePhase(roles[i..], cands, k, budget, RolePhase(roles[..i], cands, k, budget, sel))
    decreases i
  {
    hide BestForRole, CostOf;
    if i == 0 {
      assert roles[i..] == roles;
    } else {
      assert roles[..i][1..] == roles[1..][..i - 1] && roles[1..][i - 1..] == roles[i..];
      var best := BestForRole(roles[0], cands, Ids(sel));
      if best.None? {
        NobodyLeft(roles[i..], cands, k, budget, sel);
      } else if CostOf(sel) + best.value.tokenCount > budget {
        RolePhaseSplit(roles[1..], cands, k, budget, sel, i - 1);
      } else {
        RolePhaseGrows(roles[1..][..i - 1], cands, k, budget, sel + [best.value]);
        RolePhaseSplit(roles[1..], cands, k, budget, sel + [best.value], i - 1);
      }
    }
  }

  lemma {:induction false} RolePhaseGrows(roles: seq<string>, cands: seq<Item>, k: int, budget: int, sel: seq<Item>)
    ensures sel <= RolePhase(roles, cands, k, budget, sel)
    decreases |roles|
  {
    hide BestForRole, CostOf, Ids;
    if roles != [] {
      var best := BestForRole(roles[0], cands, Ids(sel));
      if best.Some? {
        RolePhaseGrows(roles[1..], cands, k, budget, sel);
        RolePhaseGrows(roles[1..], cands, k, budget, sel + [best.value]);
      }
    }
  }

  /** The item left that serves the next role best is selected for it, provided it fits and the selection is not
      full. */
  lemma RoleIsServed(roles: seq<string>, cands: seq<Item>, k: int, budget: int, i: nat, item: Item)
    requires i < |roles| && item in cands
    requires var before := RolePhase(roles[..i], cands, k, budget, []);
      && (before == [] || |before| < k) && item.id !in Ids(before) && CostOf(before) + item.tokenCount <= budget
      && forall other | other in cands && other.id !in Ids(before) && other != item :: ServesBetter(roles[i], item, other)
    ensures RolePhase(roles[..i], cands, k, budget, []) + [item] <= Proxy(roles, cands, k, budget)
  {
    hide Ranked, Without, Take, CostOf, Ids, RoleKeyLess, ServesBetter;
    var before := RolePhase(roles[..i], cands, k, budget, []);
    BestForRoleIsLargest(roles[i], cands, Ids(before), item);
    var best := BestForRole(roles[i], cands, Ids(before)).value;
    ServesBetterIs(roles[i], item, best);
    hide BestForRole;
    assert best == item;
    RolePhaseSplit(roles, cands, k, budget, [], i);
    RolePhaseGrows(roles[i + 1..], cands, k, budget, before + [item]);
    assert roles[i..][1..] == roles[i + 1..];
  }

  predicate WithinProxyLimits(cands: seq<Item>, sel: seq<Item>, k: int, budget: int) {
    && |sel| <= MaxInt(1, k)
    && (forall item | item in sel :: item in cands)
    && DistinctIds(sel)
    && 0 <= CostOf(sel) <= MaxInt(0, budget)
  }

  lemma {:induction false} RolePhaseWithinLimits(roles: seq<string>, cands: seq<Item>, k: int, budget: int, sel: seq<Item>)
    requires CostsNonNegative(cands)
    requires WithinProxyLimits(cands, sel, k, budget) && (sel == [] || |sel| < k)
    ensures WithinProxyLimits(cands, RolePhase(roles, cands, k, budget, sel), k, budget)
  {
    if roles != [] {
      var best := BestForRole(roles[0], cands, Ids(sel));
      if best.Some? {
        if CostOf(sel) + best.value.tokenCount > budget {
          RolePhaseWithinLimits(roles[1..], cands, k, budget, sel);
        } else {
          CostSplit(sel, [best.value]);
          AppendKeepsDistinct(sel, [best.value]);
          if |sel| + 1 < k {
            RolePhaseWithinLimits(roles[1..], cands, k, budget, sel + [best.value]);
          }
        }
      }
    }
  }

  lemma AppendKeepsDistinct(a: seq<Item>, b: seq<Item>)
    requires DistinctIds(a) && DistinctIds(b) && forall item | item in b :: item.id !in Ids(a)
    ensures DistinctIds(a + b)
  {
    forall i, j | 0 <= i < j < |a + b| ensures (a + b)[i].id != (a + b)[j].id {
      if i < |a| <= j {
        assert a[i].id in Ids(a) && b[j - |a|] in b;
      }
    }
  }

  lemma {:induction false} WithoutKeepsDistinct(cands: seq<Item>, ids: set<string>)
    requires DistinctIds(cands)
    ensures DistinctIds(Without(cands, ids))
  {
    if cands != [] {
      WithoutKeepsDistinct(cands[1..], ids);
      forall x | x in Without(cands[1..], ids) ensures x.id != cands[0].id {
        WithoutMember(cands[1..], ids, x);
        var m :| 0 <= m < |cands[1..]| && cands[1..][m] == x;
        assert cands[m + 1] == x;
      }
    }
  }

  lemma FillFacts(cands: seq<Item>, sel: seq<Item>)
    requires CostsNonNegative(cands) && DistinctIds(cands)
    ensures CostsNonNegative(RemainingRanked(cands, sel)) && DistinctIds(RemainingRanked(cands, sel))
    ensures forall item :: item in RemainingRanked(cands, sel) <==> item in cands && item.id !in Ids(sel)
  {
    var pool := Without(cands, Ids(sel));
    WithoutKeepsDistinct(cands, Ids(sel));
    forall item ensures item in pool <==> item in cands && item.id !in Ids(sel) {
      WithoutMember(cands, Ids(sel), item);
    }
    RankedIsPermutation("cross_encoder", pool);
    PermutationFacts(pool, RemainingRanked(cands, sel));
  }

  lemma SameIdSameItem(cands: seq<Item>, sel: seq<Item>, item: Item)
    requires DistinctIds(cands) && item in cands && item !in sel && forall x | x in sel :: x in cands
    ensures item.id !in Ids(sel)
  {
  }

  /** A maximal fill of what the first phase left over makes the whole maximal. */
  lemma FillCompletes(cands: seq<Item>, first: seq<Item>, fill: seq<Item>, more: seq<Item>, k: int, budget: int)
    requires DistinctIds(cands) && WithinProxyLimits(cands, first, k, budget) && |first| < MaxInt(1, k)
    requires forall item :: item in fill <==> item in cands && item.id !in Ids(first)
    requires |more| <= MaxInt(1, k - |first|) && DistinctIds(more) && forall item | item in more :: item in fill
    requires 0 <= CostOf(more) <= MaxInt(0, MaxInt(0, budget - CostOf(first)))
    requires Maximal(fill, more, k - |first|, MaxInt(0, budget - CostOf(first)))
    ensures WithinProxyLimits(cands, first + more, k, budget)
    ensures budget >= 0 ==> Maximal(cands, first + more, k, budget)
  {
    hide CostOf, Ids;
    CostSplit(first, more);
    AppendKeepsDistinct(first, more);
    if budget >= 0 && |first + more| < k {
      forall item | item in cands && item !in first + more
        ensures CostOf(first + more) + item.tokenCount > budget
      {
        SameIdSameItem(cands, first, item);
        assert item in fill && item !in more;
      }
    }
  }

  lemma NothingIsWithinLimits(cands: seq<Item>, k: int, budget: int)
    ensures WithinProxyLimits(cands, [], k, budget)
  {
  }

  /** The two phases together respect `k` and the budget, never repeat an id, and leave out only what
      does not fit, unless `k` is reached. */
  lemma ProxyIsMaximal(roles: seq<string>, cands: seq<Item>, k: int, budget: int)
    requires CostsNonNegative(cands) && DistinctIds(cands)
    ensures WithinProxyLimits(cands, Proxy(roles, cands, k, budget), k, budget)
    ensures budget >= 0 ==> Maximal(cands, Proxy(roles, cands, k, budget), k, budget)
  {
    hide RemainingRanked, RolePhase, Take, CostOf, Ids, DistinctIds, CostsNonNegative, WithinProxyLimits;
    var first := RolePhase(roles, cands, k, budget, []);
    NothingIsWithinLimits(cands, k, budget);
    RolePhaseWithinLimits(roles, cands, k, budget, []);
    if !(|first| >= k && first != []) {
      var fill, left := RemainingRanked(cands, first), MaxInt(0, budget - CostOf(first));
      FillFacts(cands, first);
      TakeIsSubsequence(fill, k - |first|, left);
      TakeWithinBudget(fill, k - |first|, left);
      TakeIsMaximal(fill, k - |first|, left);
      FillCompletes(cands, first, fill, Take(fill, k - |first|, left), k, budget);
    }
  }

  lemma FillIsPriced(cands: seq<Item>, sel: seq<Item>)
    requires CostsNonNegative(cands)
    ensures CostsNonNegative(RemainingRanked(cands, sel))
  {
    var pool := Without(cands, Ids(sel));
    forall item | item in pool ensures item.tokenCount >= 0 {
      WithoutMember(cands, Ids(sel), item);
    }
    RankedIsPermutation("cross_encoder", pool);
    PermutationFacts(pool, RemainingRanked(cands, sel));
  }

  lemma ProxyWithinBudget(roles: seq<string>, cands: seq<Item>, k: int, budget: int)
    requires CostsNonNegative(cands)
    ensures 0 <= CostOf(Proxy(roles, cands, k, budget)) <= MaxInt(0, budget)
  {
    hide RemainingRanked, RolePhase, Take, CostOf, Ids, DistinctIds, CostsNonNegative, Ranked, Without;
    var first := RolePhase(roles, cands, k, budget, []);
    NothingIsWithinLimits(cands, k, budget);
    RolePhaseWithinLimits(roles, cands, k, budget, []);
    if !(|first| >= k && first != []) {
      var fill, left := RemainingRanked(cands, first), MaxInt(0, budget - CostOf(first));
      FillIsPriced(cands, first);
      TakeWithinBudget(fill, k - |first|, left);
      CostSplit(first, Take(fill, k - |first|, left));
    }
  }

  // ---------------------------------------------------------------- the sensitivity report

  datatype Row = Row(cands: seq<Item>, roles: seq<string>)

  datatype Selector = CrossEncoderTopK | CoverageProxy | FrcSelect

  const METHODS := [CrossEncoderTopK, CoverageProxy, FrcSelect]

  const THRESHOLD := Thresholds(0.55, map[])

  /** `sel` is what the selector returns for the row. */
  ghost predicate SelectedBy(row: Row, selector: Selector, k: int, budget: int, sel: seq<Item>) {
    match selector
    case CrossEncoderTopK => sel == Take(Ranked("cross_encoder", row.cands), k, budget)
    case CoverageProxy => sel == Proxy(row.roles, row.cands, k, budget)
    case FrcSelect => GreedyRun(RoleValueOf(row.roles, THRESHOLD), k, budget, row.cands, sel)
  }

  method SelectPrecomputed(row: Row, selector: Selector, k: int, budget: int) returns (selected: seq<Item>)
    ensures SelectedBy(row, selector, k, budget, selected)
  {
    match selector
    case CrossEncoderTopK => selected := TakeWithBudget(Ranked("cross_encoder", row.cands), k, budget);
    case CoverageProxy => selected := SelectByProxy(row.roles, row.cands, k, budget);
    case FrcSelect => selected := SelectByRoles(row.roles, THRESHOLD, row.cands, k, budget);
  }

  /** Every compared selector stays within a non-negative budget and never has a negative cost. */
  lemma SelectorsWithinBudget(row: Row, selector: Selector, k: int, budget: int, sel: seq<Item>)
    requires CostsNonNegative(row.cands) && SelectedBy(row, selector, k, budget, sel)
    ensures 0 <= CostOf(sel) <= MaxInt(0, budget)
  {
    match selector
    case CrossEncoderTopK =>
      RankedIsPermutation("cross_encoder", row.cands);
      PermutationFacts(row.cands, Ranked("cross_encoder", row.cands));
      TakeWithinBudget(Ranked("cross_encoder", row.cands), k, budget);
    case CoverageProxy =>
      ProxyWithinBudget(row.roles, row.cands, k, budget);
    case FrcSelect =>
      RunWithinLimits(RoleValueOf(row.roles, THRESHOLD), k, budget, row.cands, sel);
  }

  predicate Priced(rows: seq<Row>) {
    forall row | row in rows :: CostsNonNegative(row.cands)
  }

  /** Counts the rows of one data set on which the selector overspends. */
  method CountViolations(rows: seq<Row>, selector: Selector, k: int, budget: int) returns (violations: nat)
    requires Priced(rows)
    ensures violations == if budget < 0 then |rows| else 0
  {
    violations := 0;
    for i := 0 to |rows|
      invariant violations == if budget < 0 then i else 0
    {
      var selected := SelectPrecomputed(rows[i], selector, k, budget);
      assert rows[i] in rows;
      SelectorsWithinBudget(rows[i], selector, k, budget, selected);
      var cost := 0;
      for j := 0 to |selected|
        invariant cost == CostOf(selected[..j])
      {
        assert selected[..j + 1][..j] == selected[..j];
        cost := cost + selected[j].tokenCount;
      }
      assert selected[..|selected|] == selected;
      if cost > budget {
        violations := violations + 1;
      }
    }
  }

  /** The status of the report: "RUN" (true) unless some rounded violation rate is not zero. An empty
      data set leaves the rate undefined, which is an error. For all data the report says "FAIL"
      exactly when a budget is negative. */
  method TokenBudgetSensitivity(datasets: seq<seq<Row>>, budgets: seq<int>, k: int) returns (status: Result<bool>)
    requires forall rows | rows in datasets :: Priced(rows)
    ensures status.Err? <==> budgets != [] && [] in datasets
    ensures status.Ok? ==> (status.value <==> datasets == [] || forall i | 0 <= i < |budgets| :: budgets[i] >= 0)
  {
    var within := true;
    for d := 0 to |datasets|
      invariant budgets != [] ==> [] !in datasets[..d]
      invariant within <==> d == 0 || forall i | 0 <= i < |budgets| :: budgets[i] >= 0
    {
      assert datasets[d] in datasets;
      var rowsWithin := true;
      for b := 0 to |budgets|
        invariant b > 0 ==> datasets[d] != []
        invariant rowsWithin <==> forall i | 0 <= i < b :: budgets[i] >= 0
      {
        if datasets[d] == [] {
          return Err("budget_violation");
        }
        var ok := NoViolations(datasets[d], k, budgets[b]);
        rowsWithin := rowsWithin && ok;
      }
      within := within && rowsWithin;
    }
    status := Ok(within);
  }

  /** Every method's rounded violation rate is zero on one data set and budget. */
  method NoViolations(rows: seq<Row>, k: int, budget: int) returns (ok: bool)
    requires Priced(rows) && rows != []
    ensures ok <==> budget >= 0
  {
    ok := true;
    for m := 0 to |METHODS|
      invariant ok <==> m == 0 || budget >= 0
    {
      var violations := CountViolations(rows, METHODS[m], k, budget);
      assert violations as real / MaxInt(1, |rows|) as real == if budget < 0 then 1.0 else 0.0;
      if Rate(violations, |rows|) != 0.0 {
        ok := false;
      }
    }
  }

  /** A violation rate rounded to six decimals. */
  function Rate(violations: nat, rows: nat): real {
    RoundHalfEven(violations as real / MaxInt(1, rows) as real * 1000000.0) as real / 1000000.0
  }

  /** The rate is within half a millionth of the share of rows. */
  lemma RateIsClose(violations: nat, rows: nat)
    requires rows >= 1
    ensures -0.0000005 <= Rate(violations, rows) - violations as real / rows as real <= 0.0000005
  {
    assert MaxInt(1, rows) == rows;
  }
}
