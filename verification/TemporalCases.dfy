/** Acts that repeal one another on adjacent days, and evidence selection on those days
    (flood_system/frc_eurlex_temporal_ablation.py). Days are proleptic Gregorian ordinals. */
module TemporalCases {
  import opened Ordering
  import opened CoverageSelection
  import BudgetSelection

  const FIRST_OLD_DAY := 711858  // 1950-01-01
  const FIRST_NEW_DAY := 735599  // 2015-01-01
  const END_OF_NEW_DAYS := 739617  // 2026-01-01

  /** A row of the query result; `typed` says that both resource types are known. */
  datatype Row = Row(oldCelex: string, newCelex: string, typed: bool,
                     oldFrom: int, oldTo: int, newFrom: int, newTo: int)

  datatype Interval = Interval(celex: string, validFrom: int, validTo: int)

  datatype Pair = Pair(older: Interval, newer: Interval)

  type Key = (string, string)

  predicate Usable(row: Row) {
    && row.typed
    && row.oldFrom >= FIRST_OLD_DAY
    && FIRST_NEW_DAY <= row.newFrom < END_OF_NEW_DAYS
    && row.oldTo + 1 == row.newFrom
    && row.oldFrom <= row.oldTo && row.newFrom <= row.newTo
  }

  // ---------------------------------------------------------------- merging rows into pairs

  /** The usable rows of one pair of acts. */
  function Group(rows: seq<Row>, key: Key): seq<Row> {
    if rows == [] then []
    else
      var front, last := Group(rows[..|rows| - 1], key), rows[|rows| - 1];
      if Usable(last) && (last.oldCelex, last.newCelex) == key then front + [last] else front
  }

  lemma {:induction false} GroupMembers(rows: seq<Row>, key: Key)
    ensures forall r :: r in Group(rows, key) <==> r in rows && Usable(r) && (r.oldCelex, r.newCelex) == key
  {
    if rows != [] {
      GroupMembers(rows[..|rows| - 1], key);
      assert rows == rows[..|rows| - 1] + [rows[|rows| - 1]];
    }
  }

  function EarliestFrom(group: seq<Row>): (day: int)
    requires group != []
    ensures exists r :: r in group && r.oldFrom == day
    ensures forall r | r in group :: day <= r.oldFrom
  {
    var front, last := group[..|group| - 1], group[|group| - 1];
    assert group == front + [last];
    if front == [] then last.oldFrom
    else
      var day := EarliestFrom(front);
      if last.oldFrom < day then last.oldFrom else day
  }

  function LatestTo(group: seq<Row>): (day: int)
    requires group != []
    ensures exists r :: r in group && r.newTo == day
    ensures forall r | r in group :: r.newTo <= day
  {
    var front, last := group[..|group| - 1], group[|group| - 1];
    assert group == front + [last];
    if front == [] then last.newTo
    else
      var day := LatestTo(front);
      if last.newTo > day then last.newTo else day
  }

  predicate OneBoundary(group: seq<Row>)
    requires group != []
  {
    forall r | r in group :: r.oldTo == group[0].oldTo && r.newFrom == group[0].newFrom
  }

  function Merge(group: seq<Row>): Option<Pair> {
    if group == [] || !OneBoundary(group) || group[0].oldTo - EarliestFrom(group) < 30 then None
    else
      Some(Pair(Interval(group[0].oldCelex, EarliestFrom(group), group[0].oldTo),
                Interval(group[0].newCelex, group[0].newFrom, LatestTo(group))))
  }

  function KeyOf(pair: Pair): Key {
    (pair.older.celex, pair.newer.celex)
  }

  /** The dictionary holds the group of every key that has one. */
  ghost predicate Groups(rows: seq<Row>, grouped: map<Key, seq<Row>>) {
    forall key :: if key in grouped then grouped[key] == Group(rows, key) != [] else Group(rows, key) == []
  }

  function AddRow(grouped: map<Key, seq<Row>>, row: Row): map<Key, seq<Row>> {
    var key := (row.oldCelex, row.newCelex);
    if !Usable(row) then grouped
    else if key in grouped then grouped[key := grouped[key] + [row]]
    else grouped[key := [row]]
  }

  lemma GroupsStep(rows: seq<Row>, i: nat, grouped: map<Key, seq<Row>>)
    requires i < |rows| && Groups(rows[..i], grouped)
    ensures Groups(rows[..i + 1], AddRow(grouped, rows[i]))
  {
    assert rows[..i + 1][..i] == rows[..i];
  }

  method GroupRows(rows: seq<Row>) returns (grouped: map<Key, seq<Row>>, keys: seq<Key>)
    ensures Groups(rows, grouped)
    ensures AllDifferent(keys) && forall key :: key in keys <==> key in grouped
  {
    hide Groups, Usable;
    grouped, keys := map[], [];
    assert Groups(rows[..0], grouped) by {
      NoGroups(rows);
    }
    for i := 0 to |rows|
      invariant Groups(rows[..i], grouped)
      invariant AllDifferent(keys) && forall key :: key in keys <==> key in grouped
    {
      var row := rows[i];
      GroupsStep(rows, i, grouped);
      if !Usable(row) {
        continue;
      }
      ghost var later := AddRow(grouped, row);
      var key := (row.oldCelex, row.newCelex);
      assert [] + [row] == [row];
      if key !in grouped {
        grouped, keys := grouped[key := []], keys + [key];
      }
      grouped := grouped[key := grouped[key] + [row]];
      assert grouped == later;
    }
    assert rows[..|rows|] == rows;
  }

  lemma NoGroups(rows: seq<Row>)
    ensures Groups(rows[..0], map[])
  {
  }

  /** One pair for every two acts whose usable rows agree on the boundary and show thirty days before it. */
  method ParseRepealPairs(rows: seq<Row>) returns (pairs: seq<Pair>)
    ensures forall p :: p in pairs <==> Merge(Group(rows, KeyOf(p))) == Some(p)
    ensures forall i, j | 0 <= i < j < |pairs| :: KeyOf(pairs[i]) != KeyOf(pairs[j])
  {
    hide Merge, Group;
    var grouped, keys := GroupRows(rows);
    pairs := [];
    for i := 0 to |keys|
      invariant forall p :: p in pairs <==> KeyOf(p) in keys[..i] && Merge(Group(rows, KeyOf(p))) == Some(p)
      invariant forall j, k | 0 <= j < k < |pairs| :: KeyOf(pairs[j]) != KeyOf(pairs[k])
    {
      assert keys[..i + 1] == keys[..i] + [keys[i]];
      assert keys[i] in keys;
      var merged := Merge(grouped[keys[i]]);
      MergedKey(rows, keys[i]);
      if merged.Some? {
        assert keys[i] !in keys[..i];
        pairs := pairs + [merged.value];
      }
    }
    forall p | Merge(Group(rows, KeyOf(p))) == Some(p) ensures KeyOf(p) in keys {
      MergedKey(rows, KeyOf(p));
    }
    assert keys[..|keys|] == keys;
  }

  lemma MergedKey(rows: seq<Row>, key: Key)
    ensures Merge(Group(rows, key)).Some? ==> KeyOf(Merge(Group(rows, key)).value) == key && Group(rows, key) != []
  {
    GroupMembers(rows, key);
    if Group(rows, key) != [] {
      assert Group(rows, key)[0] in Group(rows, key);
    }
  }

  /** A merged pair covers every usable row of its acts and nothing more, and its two intervals meet. */
  lemma PairIsHull(rows: seq<Row>, p: Pair)
    requires Merge(Group(rows, KeyOf(p))) == Some(p)
    ensures p.older.validFrom + 30 <= p.older.validTo && p.older.validTo + 1 == p.newer.validFrom <= p.newer.validTo
    ensures forall r | r in rows && Usable(r) && (r.oldCelex, r.newCelex) == KeyOf(p) ::
      p.older.validFrom <= r.oldFrom && r.oldTo == p.older.validTo && r.newFrom == p.newer.validFrom && r.newTo <= p.newer.validTo
    ensures exists r :: r in rows && Usable(r) && (r.oldCelex, r.newCelex) == KeyOf(p) && r.oldFrom == p.older.validFrom
    ensures exists r :: r in rows && Usable(r) && (r.oldCelex, r.newCelex) == KeyOf(p) && r.newTo == p.newer.validTo
  {
    var group := Group(rows, KeyOf(p));
    GroupMembers(rows, KeyOf(p));
    assert group[0] in group;
    assert forall r | r in group :: r in rows;
  }

  /** The row is about the two acts, says when the pair's boundary was, and passes every filter. */
  ghost predicate Supports(row: Row, p: Pair) {
    && row.oldCelex == p.older.celex && row.newCelex == p.newer.celex && row.typed
    && 711858 <= row.oldFrom <= row.oldTo && 735599 <= row.newFrom <= row.newTo && row.newFrom < 739617
    && row.newFrom == row.oldTo + 1
  }

  /** A pair comes out exactly when there are rows for its acts, all of them have its boundary, its ends are the widest
      of theirs, and the old act was in force for thirty days before the boundary. */
  lemma PairIff(rows: seq<Row>, p: Pair)
    ensures Merge(Group(rows, KeyOf(p))) == Some(p) <==>
      && (forall r | r in rows && Supports(r, p) :: r.oldTo == p.older.validTo && r.newFrom == p.newer.validFrom)
      && (forall r | r in rows && Supports(r, p) :: p.older.validFrom <= r.oldFrom && r.newTo <= p.newer.validTo)
      && (exists r :: r in rows && Supports(r, p) && r.oldFrom == p.older.validFrom)
      && (exists r :: r in rows && Supports(r, p) && r.newTo == p.newer.validTo)
      && p.older.validTo - p.older.validFrom >= 30
  {
    var group := Group(rows, KeyOf(p));
    GroupMembers(rows, KeyOf(p));
    hide Group;
    assert forall r :: r in group <==> r in rows && Supports(r, p);
    hide Supports, Usable;
    if group != [] {
      assert group[0] in group;
      FirstOfGroup(rows, p);
    }
  }

  lemma FirstOfGroup(rows: seq<Row>, p: Pair)
    requires Group(rows, KeyOf(p)) != []
    ensures var r := Group(rows, KeyOf(p))[0]; r.oldCelex == p.older.celex && r.newCelex == p.newer.celex
  {
    GroupMembers(rows, KeyOf(p));
    assert Group(rows, KeyOf(p))[0] in Group(rows, KeyOf(p));
  }

  predicate Applies(day: int, act: Interval) {
    act.validFrom <= day <= act.validTo
  }

  predicate Adjacent(p: Pair) {
    p.older.validFrom <= p.older.validTo && p.older.validTo + 1 == p.newer.validFrom <= p.newer.validTo
  }

  /** From the first day of the old act to the last day of the new one, exactly one of them applies. */
  lemma ExactlyOneApplies(rows: seq<Row>, p: Pair, day: int)
    requires Merge(Group(rows, KeyOf(p))) == Some(p)
    ensures Adjacent(p)
    ensures p.older.validFrom <= day <= p.newer.validTo <==> (Applies(day, p.older) || Applies(day, p.newer))
    ensures !(Applies(day, p.older) && Applies(day, p.newer))
  {
    PairIsHull(rows, p);
  }

  // ---------------------------------------------------------------- cases on the boundary

  datatype Act = Act(item: Item, validity: Interval)

  /** An act keeps its CELEX identifier as the identifier of the candidate. */
  predicate Named(act: Act) {
    act.item.id == act.validity.celex
  }

  datatype Case = Case(asOf: int, gold: Act, superseded: Act, others: seq<Act>)

  function Candidates(c: Case): seq<Act> {
    [c.gold, c.superseded] + c.others
  }

  /** The case of the last valid day and that of the first effective day. */
  method BoundaryCases(older: Act, newer: Act, others: seq<Act>) returns (last: Case, first: Case)
    requires Adjacent(Pair(older.validity, newer.validity))
    ensures last.gold == older && last.superseded == newer && first.gold == newer && first.superseded == older
    ensures last.others == first.others == others
    ensures Applies(last.asOf, last.gold.validity) && !Applies(last.asOf, last.superseded.validity)
    ensures Applies(first.asOf, first.gold.validity) && !Applies(first.asOf, first.superseded.validity)
    ensures first.asOf == last.asOf + 1
  {
    last := Case(older.validity.validTo, older, newer, others);
    first := Case(newer.validity.validFrom, newer, older, others);
  }

  /** The items of the acts that apply on a day, in order. */
  function Applicable(day: int, acts: seq<Act>): (items: seq<Item>)
    ensures forall item :: item in items <==> exists a :: a in acts && Applies(day, a.validity) && a.item == item
  {
    if acts == [] then []
    else
      var front, last := Applicable(day, acts[..|acts| - 1]), acts[|acts| - 1];
      assert acts == acts[..|acts| - 1] + [last];
      if Applies(day, last.validity) then front + [last.item] else front
  }

  /** The selection with the applicability filter: rank what applies, then take what fits. */
  method SelectApplicable(c: Case, topK: int, budget: int) returns (selected: seq<Item>)
    ensures selected == BudgetSelection.Take(
      BudgetSelection.Ranked("cross_encoder", Applicable(c.asOf, Candidates(c))),
      if topK >= 1 then topK else |Applicable(c.asOf, Candidates(c))| + 1, budget)
  {
    var acts := Candidates(c);
    var filtered: seq<Item> := [];
    for i := 0 to |acts|
      invariant filtered == Applicable(c.asOf, acts[..i])
    {
      assert acts[..i + 1][..i] == acts[..i];
      if Applies(c.asOf, acts[i].validity) {
        filtered := filtered + [acts[i].item];
      }
    }
    assert acts[..|acts|] == acts;
    var ranked := BudgetSelection.Ranked("cross_encoder", filtered);
    BudgetSelection.RankedIsPermutation("cross_encoder", filtered);
    assert |ranked| == |multiset(ranked)| == |filtered|;
    selected := BudgetSelection.TakeExactly(ranked, topK, budget);
  }

  function Selected(c: Case, k: int, budget: int): seq<Item> {
    BudgetSelection.Take(BudgetSelection.Ranked("cross_encoder", Applicable(c.asOf, Candidates(c))), k, budget)
  }

  lemma SelectedApplies(c: Case, k: int, budget: int, item: Item)
    requires item in Selected(c, k, budget)
    ensures exists a :: a in Candidates(c) && Applies(c.asOf, a.validity) && a.item == item
  {
    var pool := Applicable(c.asOf, Candidates(c));
    BudgetSelection.TakeIsSubsequence(BudgetSelection.Ranked("cross_encoder", pool), k, budget);
    BudgetSelection.RankedIsPermutation("cross_encoder", pool);
    assert item in multiset(BudgetSelection.Ranked("cross_encoder", pool));
    assert item in multiset(pool) && item in pool;
  }

  /** The identifier of the superseded act is never selected, unless a distractor bears it as well and
      applies on that day. */
  lemma SupersededIsNotSelected(c: Case, k: int, budget: int, item: Item)
    requires forall a | a in Candidates(c) :: Named(a)
    requires Applies(c.asOf, c.gold.validity) && !Applies(c.asOf, c.superseded.validity)
    requires c.gold.item.id != c.superseded.item.id
    requires item in Selected(c, k, budget) && item.id == c.superseded.item.id
    ensures exists a :: a in c.others && a.validity.celex == c.superseded.validity.celex && Applies(c.asOf, a.validity)
  {
    SelectedApplies(c, k, budget, item);
    var a :| a in Candidates(c) && Applies(c.asOf, a.validity) && a.item == item;
    assert Named(a) && Named(c.gold) && Named(c.superseded) by {
      assert Candidates(c)[0] == c.gold && Candidates(c)[1] == c.superseded;
    }
    assert a == c.gold || a == c.superseded || a in c.others;
  }

  predicate Fitting(c: Case, budget: int, item: Item) {
    item in Applicable(c.asOf, Candidates(c)) && item.tokenCount <= budget
  }

  /** An applicable act that fits and that no other such act outranks. */
  predicate IsBest(c: Case, budget: int, item: Item) {
    Fitting(c, budget, item)
    && forall other | other in Applicable(c.asOf, Candidates(c)) && other.tokenCount <= budget ::
         !BudgetSelection.RanksBefore("cross_encoder", other, item)
  }

  /** For any limit, the first act selected is a best applicable act that fits, and nothing is selected
      only if none fits; with room for one it is the only act. */
  lemma BestApplicableIsFirst(c: Case, k: int, budget: int)
    ensures var selected := Selected(c, k, budget);
      && (selected == [] <==> forall item :: !Fitting(c, budget, item))
      && (selected != [] ==> IsBest(c, budget, selected[0]))
      && (k <= 1 ==> |selected| <= 1)
  {
    hide Applicable, Candidates, BudgetSelection.Ranked, BudgetSelection.Take, BudgetSelection.RanksBefore;
    var pool := Applicable(c.asOf, Candidates(c));
    var ranked := BudgetSelection.Ranked("cross_encoder", pool);
    RankedKeepsItems(pool);
    RankedHeadFits(ranked, pool, k, budget);
    var selected := Selected(c, k, budget);
    if item :| Fitting(c, budget, item) {
      assert item in ranked && item.tokenCount <= budget;
    }
    if selected != [] {
      assert IsBest(c, budget, selected[0]);
    }
  }

  /** A best act scores at least as high as any other that applies and fits, and of equal ones it has no later
      identifier. */
  lemma BestIsHighest(c: Case, budget: int, item: Item, other: Act, a: real, b: real)
    requires IsBest(c, budget, item) && other in Candidates(c)
    requires other.validity.validFrom <= c.asOf <= other.validity.validTo && other.item.tokenCount <= budget
    requires HasScore(item.scores, "cross_encoder", a) && HasScore(other.item.scores, "cross_encoder", b)
    ensures item.tokenCount <= budget
    ensures a > b || (a == b && !LexLess(other.item.id, item.id))
  {
    hide Candidates;
    assert other.item in Applicable(c.asOf, Candidates(c));
  }

  predicate HeadIsBest(ranked: seq<Item>, budget: int, taken: seq<Item>) {
    && taken != [] && taken[0] in ranked && taken[0].tokenCount <= budget
    && forall item | item in ranked && item.tokenCount <= budget ::
         !BudgetSelection.RanksBefore("cross_encoder", item, taken[0])
  }

  lemma RankedHeadFits(ranked: seq<Item>, pool: seq<Item>, k: int, budget: int)
    requires ranked == BudgetSelection.Ranked("cross_encoder", pool)
    ensures k <= 1 ==> |BudgetSelection.Take(ranked, k, budget)| <= 1
    ensures if forall item | item in ranked :: item.tokenCount > budget
      then BudgetSelection.Take(ranked, k, budget) == []
      else HeadIsBest(ranked, budget, BudgetSelection.Take(ranked, k, budget))
  {
    hide BudgetSelection.Ranked, BudgetSelection.Take, BudgetSelection.RanksBefore, BudgetSelection.SortedBy;
    BudgetSelection.RankedIsSorted("cross_encoder", pool);
    BudgetSelection.TakeIsSubsequence(ranked, k, budget);
    FirstThatFits(ranked, k, budget);
  }

  lemma RankedKeepsItems(pool: seq<Item>)
    ensures forall item :: item in BudgetSelection.Ranked("cross_encoder", pool) <==> item in pool
  {
    BudgetSelection.RankedIsPermutation("cross_encoder", pool);
    BudgetSelection.PermutationFacts(BudgetSelection.Ranked("cross_encoder", pool), pool);
  }

  lemma {:induction false} FirstThatFits(ranked: seq<Item>, k: int, budget: int)
    requires BudgetSelection.SortedBy("cross_encoder", ranked)
    ensures var taken := BudgetSelection.Take(ranked, k, budget);
      if forall item | item in ranked :: item.tokenCount > budget then taken == []
      else HeadIsBest(ranked, budget, taken)
  {
    if ranked != [] {
      LexTrichotomy(ranked[0].id, ranked[0].id);
      assert ranked == [ranked[0]] + ranked[1..];
      if ranked[0].tokenCount > budget {
        FirstThatFits(ranked[1..], k, budget);
      }
    }
  }

  lemma BestHaveOneId(c: Case, budget: int, x: Item, y: Item)
    requires IsBest(c, budget, x) && IsBest(c, budget, y)
    ensures x.id == y.id
  {
    LexTrichotomy(x.id, y.id);
  }

  /** With room for one, the superseded identifier is selected exactly when a distractor that applies bears
      it and is a best applicable act that fits. */
  lemma SupersededIsSelectedIff(c: Case, budget: int)
    requires forall a | a in Candidates(c) :: Named(a)
    requires Applies(c.asOf, c.gold.validity) && !Applies(c.asOf, c.superseded.validity)
    requires c.gold.item.id != c.superseded.item.id
    ensures (exists item :: item in Selected(c, 1, budget) && item.id == c.superseded.item.id) <==>
      exists a :: a in c.others && a.validity.celex == c.superseded.validity.celex
        && Applies(c.asOf, a.validity) && IsBest(c, budget, a.item)
  {
    hide IsBest, BudgetSelection.Take, BudgetSelection.Ranked;
    var selected := Selected(c, 1, budget);
    BestApplicableIsFirst(c, 1, budget);
    assert forall a | a in c.others :: a in Candidates(c);
    assert c.superseded in Candidates(c) by { assert Candidates(c)[1] == c.superseded; }
    if item :| item in selected && item.id == c.superseded.item.id {
      assert item == selected[0];
      SelectedApplies(c, 1, budget, item);
      var a :| a in Candidates(c) && Applies(c.asOf, a.validity) && a.item == item;
      assert a == c.gold || a == c.superseded || a in c.others;
    }
    if a :| a in c.others && a.validity.celex == c.superseded.validity.celex
            && Applies(c.asOf, a.validity) && IsBest(c, budget, a.item) {
      BestFits(c, budget, a.item);
      BestHaveOneId(c, budget, a.item, selected[0]);
      assert selected[0] in selected && selected[0].id == c.superseded.item.id;
    }
  }

  lemma BestFits(c: Case, budget: int, item: Item)
    requires IsBest(c, budget, item)
    ensures Fitting(c, budget, item)
  {
  }

  // ---------------------------------------------------------------- a chain of repeals

  /** Three acts, each repealed by the next. The middle one entered into force twice, first while its
      predecessor was still valid. */
  datatype Chain = Chain(first: string, second: string, third: string,
                         firstFrom: int, firstTo: int, secondFrom: int, secondTo: int, thirdTo: int)
  {
    predicate Possible() {
      && first != second && second != third && first != third
      && FIRST_OLD_DAY <= firstFrom && firstFrom + 30 <= firstTo
      && FIRST_OLD_DAY <= secondFrom <= firstTo
      && FIRST_NEW_DAY <= firstTo + 1 <= secondTo && secondTo + 1 < END_OF_NEW_DAYS
      && secondFrom + 30 <= secondTo && secondTo + 1 <= thirdTo
    }

    /** The rows of the query: the middle act's second repeal comes once with each of its dates. */
    function Rows(): seq<Row> {
      [Row(first, second, true, firstFrom, firstTo, firstTo + 1, secondTo),
       Row(second, third, true, secondFrom, secondTo, secondTo + 1, thirdTo),
       Row(second, third, true, firstTo + 1, secondTo, secondTo + 1, thirdTo)]
    }

    function Earlier(): Pair {
      Pair(Interval(first, firstFrom, firstTo), Interval(second, firstTo + 1, secondTo))
    }

    function Later(): Pair {
      Pair(Interval(second, secondFrom, secondTo), Interval(third, secondTo + 1, thirdTo))
    }
  }

  /** Both pairs are parsed, and give the middle act two different intervals. */
  lemma ChainParses(chain: Chain)
    requires chain.Possible()
    ensures Merge(Group(chain.Rows(), KeyOf(chain.Earlier()))) == Some(chain.Earlier())
    ensures Merge(Group(chain.Rows(), KeyOf(chain.Later()))) == Some(chain.Later())
  {
    hide Group, Merge;
    var rows := chain.Rows();
    GroupOfThree(rows, KeyOf(chain.Earlier()));
    GroupOfThree(rows, KeyOf(chain.Later()));
    SoleMerge(rows[0]);
    PairMerge(rows[1], rows[2]);
    assert Group(rows, KeyOf(chain.Earlier())) == [rows[0]];
    assert Group(rows, KeyOf(chain.Later())) == [rows[1], rows[2]];
  }

  function IfIn(row: Row, key: Key): seq<Row> {
    if Usable(row) && (row.oldCelex, row.newCelex) == key then [row] else []
  }

  lemma GroupOfThree(rows: seq<Row>, key: Key)
    requires |rows| == 3
    ensures Group(rows, key) == IfIn(rows[0], key) + IfIn(rows[1], key) + IfIn(rows[2], key)
  {
    OneMoreRow(rows[..2], rows[2], key);
    OneMoreRow([rows[0]], rows[1], key);
    OneMoreRow([], rows[0], key);
    assert rows == rows[..2] + [rows[2]] && rows[..2] == [rows[0]] + [rows[1]] && [rows[0]] == [] + [rows[0]];
  }

  lemma OneMoreRow(rows: seq<Row>, row: Row, key: Key)
    ensures Group(rows + [row], key) == Group(rows, key) + IfIn(row, key)
    ensures Group([], key) == []
  {
    assert (rows + [row])[..|rows|] == rows;
  }

  lemma SoleMerge(r: Row)
    requires r.oldTo - r.oldFrom >= 30
    ensures Merge([r]) == Some(Pair(Interval(r.oldCelex, r.oldFrom, r.oldTo), Interval(r.newCelex, r.newFrom, r.newTo)))
  {
    assert r in [r];
  }

  lemma PairMerge(r: Row, s: Row)
    requires r.oldTo == s.oldTo && r.newFrom == s.newFrom && r.newTo == s.newTo && r.oldFrom <= s.oldFrom
    requires r.oldTo - r.oldFrom >= 30
    ensures Merge([r, s]) == Some(Pair(Interval(r.oldCelex, r.oldFrom, r.oldTo), Interval(r.newCelex, r.newFrom, r.newTo)))
  {
    assert r in [r, s] && s in [r, s];
  }

  /** On the last day of the first act, its case with the later pair as distractor selects the superseded
      act if that outranks the first one and fits. Text and scores go with the identifier. */
  lemma ChainSelectsSuperseded(chain: Chain, one: Item, two: Item, three: Item, budget: int)
    requires chain.Possible() && one.id == chain.first && two.id == chain.second && three.id == chain.third
    requires BudgetSelection.RanksBefore("cross_encoder", two, one) && two.tokenCount <= budget
    ensures var c := Case(chain.firstTo, Act(one, chain.Earlier().older), Act(two, chain.Earlier().newer),
                          [Act(two, chain.Later().older), Act(three, chain.Later().newer)]);
      && Applies(c.asOf, c.gold.validity) && !Applies(c.asOf, c.superseded.validity)
      && exists item :: item in Selected(c, 1, budget) && item.id == c.superseded.item.id
  {
    hide IsBest, BudgetSelection.RanksBefore, Selected;
    var again := Act(two, chain.Later().older);
    var c := Case(chain.firstTo, Act(one, chain.Earlier().older), Act(two, chain.Earlier().newer),
                  [again, Act(three, chain.Later().newer)]);
    assert again in c.others && again in Candidates(c);
    BestOfTwo(c, budget, one, two);
    SupersededIsSelectedIff(c, budget);
  }

  lemma BestOfTwo(c: Case, budget: int, one: Item, two: Item)
    requires forall a | a in Candidates(c) && Applies(c.asOf, a.validity) :: a.item == one || a.item == two
    requires exists a :: a in Candidates(c) && Applies(c.asOf, a.validity) && a.item == two
    requires BudgetSelection.RanksBefore("cross_encoder", two, one) && two.tokenCount <= budget
    ensures IsBest(c, budget, two)
  {
    LexTrichotomy(one.id, two.id);
    LexTrichotomy(two.id, two.id);
  }
}
