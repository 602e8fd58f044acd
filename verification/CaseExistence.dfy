/** How many composite housing cases the builder of flood_system/frc_housing_ablation.py can make.

    When a statute belongs to one question and no state asks a question group twice, the number is
    known beforehand. Without that, a failure still has one of two reasons. */
module CaseExistence {
  import opened Ordering
  import opened CaseBuilder

  /** Each statute belongs to one record, and a state has one record for a question group. */
  ghost predicate AskedOnce(records: seq<Record>) {
    && (forall x, y | x in records && y in records && x.statute == y.statute :: x == y)
    && (forall x, y | x in records && y in records && x.state == y.state && x.group == y.group :: x == y)
  }

  ghost function Asked(records: seq<Record>, state: string): set<Record> {
    set x | x in records && x.state == state
  }

  /** The records of a state for which another state answered the same group differently. */
  ghost function Answerable(records: seq<Record>, state: string): set<Record> {
    set x | x in records && x.state == state && HasOpposite(records, x)
  }

  /** As many cases as a state's answerable records can fill, if it has records enough for one case at all. */
  ghost function Quota(records: seq<Record>, plan: Plan, state: string): nat
    requires plan.Valid()
  {
    if |Asked(records, state)| >= plan.fields + plan.distractors then |Answerable(records, state)| / plan.fields else 0
  }

  ghost function Capacity(records: seq<Record>, plan: Plan, states: seq<string>): nat
    requires plan.Valid()
  {
    if states == [] then 0
    else Capacity(records, plan, states[..|states| - 1]) + Quota(records, plan, states[|states| - 1])
  }

  function CasesIn(cases: seq<Case>, state: string): nat {
    if cases == [] then 0
    else CasesIn(cases[..|cases| - 1], state) + if cases[|cases| - 1].state == state then 1 else 0
  }

  // ---------------------------------------------------------------- counting

  lemma {:induction false} GroupsAre(rs: seq<Record>)
    ensures Groups(rs) == set x | x in rs :: x.group
  {
    if rs != [] {
      var init, last := rs[..|rs| - 1], rs[|rs| - 1];
      GroupsAre(init);
      assert rs == init + [last];
    }
  }

  lemma {:induction false} StatutesAre(rs: seq<Record>)
    ensures Statutes(rs) == set x | x in rs :: x.statute
  {
    if rs != [] {
      var init, last := rs[..|rs| - 1], rs[|rs| - 1];
      StatutesAre(init);
      assert rs == init + [last];
    }
  }

  lemma {:induction false} GroupCount(s: set<Record>)
    requires forall x, y | x in s && y in s && x.group == y.group :: x == y
    ensures |set x | x in s :: x.group| == |s|
    decreases s
  {
    if s != {} {
      var x :| x in s;
      GroupCount(s - {x});
      assert (set y | y in s :: y.group) == (set y | y in s - {x} :: y.group) + {x.group};
    }
  }

  lemma {:induction false} StatuteCount(s: set<Record>)
    requires forall x, y | x in s && y in s && x.statute == y.statute :: x == y
    ensures |set x | x in s :: x.statute| == |s|
    decreases s
  {
    if s != {} {
      var x :| x in s;
      StatuteCount(s - {x});
      assert (set y | y in s :: y.statute) == (set y | y in s - {x} :: y.statute) + {x.statute};
    }
  }

  lemma {:induction false} DistinctGroupsCount(rs: seq<Record>)
    requires DistinctGroups(rs)
    ensures |Groups(rs)| == |rs|
  {
    if rs != [] {
      var init, last := rs[..|rs| - 1], rs[|rs| - 1];
      DistinctGroupsCount(init);
      GroupsAre(init);
    }
  }

  lemma EligibleGroups(records: seq<Record>, state: string)
    requires AskedOnce(records)
    ensures |Groups(Eligible(records, records, state))| == |Answerable(records, state)|
  {
    hide Eligible, Groups, HasOpposite;
    var s := Answerable(records, state);
    forall x ensures x in Eligible(records, records, state) <==> x in s {
      EligibleIff(records, records, state, x);
    }
    GroupsAre(Eligible(records, records, state));
    GroupCount(s);
    assert Groups(Eligible(records, records, state)) == set x | x in s :: x.group;
  }

  // ---------------------------------------------------------------- the three kinds of candidates

  /** Enough targets are found exactly when enough groups are left. */
  lemma EnoughTargetsIff(ranked: seq<Record>, previously: set<int>, fields: nat)
    requires forall x, y | x in ranked && y in ranked && x.statute == y.statute :: x == y
    requires previously <= Groups(ranked)
    ensures |FirstTargets(ranked, previously, fields)| == fields <==> |Groups(ranked)| >= |previously| + fields
  {
    var targets := FirstTargets(ranked, previously, fields);
    TargetsAreDistinct(ranked, previously, fields);
    hide FirstTargets, Groups, Statutes;
    DistinctGroupsCount(targets);
    GroupsAre(targets);
    GroupsAre(ranked);
    if |targets| < fields {
      forall g | g in Groups(ranked) ensures g in previously + Groups(targets) {
        var r :| r in ranked && r.group == g;
        if r.statute in Statutes(targets) {
          var x := StatuteOwner(targets, r.statute);
        }
      }
      SubsetCardinality(Groups(ranked), previously + Groups(targets));
    } else {
      SubsetCardinality(previously + Groups(targets), Groups(ranked));
    }
  }

  lemma {:induction false} NextUnusedFound(ranked: seq<Record>, used: set<int>)
    ensures NextUnused(ranked, used).Some? <==> exists y :: y in ranked && y.statute !in used
    ensures NextUnused(ranked, used).Some? ==> NextUnused(ranked, used).value in ranked
  {
    if ranked != [] {
      NextUnusedFound(ranked[1..], used);
      assert ranked == [ranked[0]] + ranked[1..];
    }
  }

  lemma RankedOpposite(records: seq<Record>, r: Record, key: (Record, Record) -> int, x: Record)
    ensures x in RankedOpposites(records, r, key) <==> x in records && IsOpposite(r, x)
  {
    SortMember(y => key(r, y), Opposites(records, r), x);
    OppositesMember(records, r, x);
  }

  ghost predicate AreNegatives(records: seq<Record>, targets: seq<Record>, negatives: seq<Record>) {
    && |negatives| == |targets|
    && forall i | 0 <= i < |targets| :: negatives[i] in records && IsOpposite(targets[i], negatives[i])
  }

  lemma NegativeTarget(records: seq<Record>, targets: seq<Record>, negatives: seq<Record>, z: Record)
    returns (t: Record)
    requires AreNegatives(records, targets, negatives) && z in negatives
    ensures t in targets && z in records && IsOpposite(t, z)
  {
    var i :| 0 <= i < |negatives| && negatives[i] == z;
    t := targets[i];
  }

  /** No negative of one target uses up the statute of another's. */
  lemma UnusedNegative(records: seq<Record>, targets: seq<Record>, negatives: seq<Record>, y: Record)
    requires AskedOnce(records) && AreNegatives(records, targets, negatives) && y in records
    requires forall t | t in targets :: t.group != y.group
    ensures y.statute !in Statutes(negatives)
  {
    hide Statutes, AreNegatives;
    if y.statute in Statutes(negatives) {
      var z := StatuteOwner(negatives, y.statute);
      var t := NegativeTarget(records, targets, negatives, z);
    }
  }

  lemma {:induction false} NegativesFound(records: seq<Record>, state: string, targets: seq<Record>, own: set<int>,
                                          key: (Record, Record) -> int)
    requires AskedOnce(records) && DistinctGroups(targets)
    requires forall t | t in targets :: t in records && t.state == state && HasOpposite(records, t)
    requires forall r | r in records && r.state != state :: r.statute !in own
    ensures var negatives := FirstNegatives(records, targets, own, key);
            negatives.Some? && AreNegatives(records, targets, negatives.value)
  {
    if targets != [] {
      var init, last := targets[..|targets| - 1], targets[|targets| - 1];
      assert targets == init + [last];
      NegativesFound(records, state, init, own, key);
      OneMoreNegative(records, state, init, last, own, key);
    }
  }

  lemma OneMoreNegative(records: seq<Record>, state: string, init: seq<Record>, last: Record, own: set<int>,
                        key: (Record, Record) -> int)
    requires AskedOnce(records) && DistinctGroups(init + [last])
    requires last in records && last.state == state && HasOpposite(records, last)
    requires forall r | r in records && r.state != state :: r.statute !in own
    requires FirstNegatives(records, init, own, key).Some?
    requires AreNegatives(records, init, FirstNegatives(records, init, own, key).value)
    ensures var negatives := FirstNegatives(records, init + [last], own, key);
            negatives.Some? && AreNegatives(records, init + [last], negatives.value)
  {
    var front := FirstNegatives(records, init, own, key).value;
    var ranked, used := RankedOpposites(records, last, key), own + Statutes(front);
    NegativesUnfold(records, init, last, own, key);
    var y :| y in records && y.group == last.group && y.state != last.state && y.yes != last.yes;
    OtherGroups(init, last);
    UnusedNegative(records, init, front, y);
    hide FirstNegatives, NextUnused, RankedOpposites, Statutes, AskedOnce, DistinctGroups, HasOpposite, AreNegatives;
    RankedOpposite(records, last, key, y);
    NextUnusedFound(ranked, used);
    var next := NextUnused(ranked, used).value;
    RankedOpposite(records, last, key, next);
    NegativesAppend(records, init, front, last, next);
  }

  lemma NegativesUnfold(records: seq<Record>, init: seq<Record>, last: Record, own: set<int>, key: (Record, Record) -> int)
    requires FirstNegatives(records, init, own, key).Some?
    ensures var front := FirstNegatives(records, init, own, key).value;
            var next := NextUnused(RankedOpposites(records, last, key), own + Statutes(front));
            FirstNegatives(records, init + [last], own, key)
            == if next.None? then None else Some(front + [next.value])
  {
    hide RankedOpposites, NextUnused, Statutes;
    assert (init + [last])[..|init|] == init;
  }

  lemma OtherGroups(init: seq<Record>, last: Record)
    requires DistinctGroups(init + [last])
    ensures forall t | t in init :: t.group != last.group
  {
    forall t | t in init ensures t.group != last.group {
      var i :| 0 <= i < |init| && init[i] == t;
      assert (init + [last])[i] == t && (init + [last])[|init|] == last;
    }
  }

  lemma NegativesAppend(records: seq<Record>, targets: seq<Record>, negatives: seq<Record>, t: Record, x: Record)
    requires AreNegatives(records, targets, negatives) && x in records && IsOpposite(t, x)
    ensures AreNegatives(records, targets + [t], negatives + [x])
  {
  }

  lemma PoolOrTarget(records: seq<Record>, state: string, targets: seq<Record>, negatives: seq<Record>, x: Record)
    requires AskedOnce(records) && x in Asked(records, state)
    requires forall t | t in targets :: t in records && t.state == state
    requires AreNegatives(records, targets, negatives)
    ensures x in targets || (x.group !in Groups(targets) && x.statute !in Statutes(targets) + Statutes(negatives))
  {
    hide Statutes, Groups, AreNegatives;
    GroupsAre(targets);
    if x !in targets {
      assert x.group !in Groups(targets);
      if x.statute in Statutes(targets) {
        var y := StatuteOwner(targets, x.statute);
      }
      if x.statute in Statutes(negatives) {
        var y := StatuteOwner(negatives, x.statute);
        var t := NegativeTarget(records, targets, negatives, y);
      }
    }
  }

  /** The pool of distractors holds every record of the state but the targets. */
  lemma PoolIs(records: seq<Record>, state: string, targets: seq<Record>, negatives: seq<Record>, x: Record)
    requires AskedOnce(records)
    requires forall t | t in targets :: t in records && t.state == state
    requires AreNegatives(records, targets, negatives)
    ensures x in DistractorPool(records, state, Groups(targets), Statutes(targets) + Statutes(negatives))
            <==> x in Asked(records, state) && x !in targets
  {
    hide DistractorPool, Statutes, Groups, AreNegatives, AskedOnce;
    if x in Asked(records, state) {
      PoolOrTarget(records, state, targets, negatives, x);
    }
    if x in targets {
      MemberSets(targets, x);
    }
  }

  lemma SplitCount(all: set<Record>, pool: seq<Record>, targets: seq<Record>)
    requires forall x, y | x in all && y in all && x.statute == y.statute :: x == y
    requires forall x :: x in pool <==> x in all && x !in targets
    requires forall x | x in targets :: x in all
    requires DistinctStatutes(targets)
    ensures |Statutes(pool)| + |targets| == |all|
  {
    var own, rest := set x | x in targets, set x | x in all && x !in targets;
    DistinctStatutesCount(targets);
    hide Statutes, DistinctStatutes;
    MemberCount(targets, own);
    MemberCount(pool, rest);
    assert all == rest + own;
  }

  lemma MemberCount(rs: seq<Record>, s: set<Record>)
    requires forall x, y | x in s && y in s && x.statute == y.statute :: x == y
    requires forall x :: x in rs <==> x in s
    ensures |Statutes(rs)| == |s|
  {
    StatutesAre(rs);
    StatuteCount(s);
    hide Statutes;
    assert (set x | x in rs :: x.statute) == set x | x in s :: x.statute;
  }

  /** As many distinct statutes are taken as there are, or as are wanted. */
  lemma DistractorCount(pool: seq<Record>, used: set<int>, wanted: nat)
    requires Statutes(pool) !! used
    ensures |FirstDistractors(pool, used, wanted)| >= wanted <==> |Statutes(pool)| >= wanted
  {
    var distractors := FirstDistractors(pool, used, wanted);
    DistractorsAreDistinct(pool, used, wanted);
    hide Statutes, FirstDistractors;
    DistinctStatutesCount(distractors);
    StatutesAre(pool);
    StatutesAre(distractors);
    assert Statutes(pool) - used == Statutes(pool);
    SubsetCardinality(Statutes(distractors), Statutes(pool));
  }

  /** There are enough distractors exactly when the state has records enough. */
  lemma EnoughDistractorsIff(records: seq<Record>, state: string, targets: seq<Record>, negatives: seq<Record>,
                             number: nat, wanted: nat, orders: Orders)
    requires AskedOnce(records) && DistinctStatutes(targets)
    requires forall t | t in targets :: t in records && t.state == state
    requires AreNegatives(records, targets, negatives)
    ensures |DistractorsOf(records, state, targets, negatives, number, wanted, orders)| >= wanted
            <==> |Asked(records, state)| >= |targets| + wanted
  {
    var used := Statutes(targets) + Statutes(negatives);
    var ranked := RankedPool(records, state, targets, used, number, orders);
    assert FirstDistractors(ranked, used, wanted) == DistractorsOf(records, state, targets, negatives, number, wanted, orders);
    forall x ensures (x in ranked <==> x in DistractorPool(records, state, Groups(targets), used))
                     && (x in ranked ==> x.statute !in used)
    {
      InRankedPool(records, state, targets, used, number, orders, x);
    }
    hide DistractorPool, Statutes, Groups, RankedPool, FirstDistractors, DistractorsOf, AreNegatives, DistinctStatutes;
    forall x ensures x in ranked <==> x in Asked(records, state) && x !in targets {
      PoolIs(records, state, targets, negatives, x);
    }
    hide Asked, AskedOnce;
    AskedStatutes(records, state);
    SplitCount(Asked(records, state), ranked, targets);
    Unused(ranked, used);
    DistractorCount(ranked, used, wanted);
  }

  function RankedPool(records: seq<Record>, state: string, targets: seq<Record>, used: set<int>, number: nat,
                      orders: Orders): seq<Record>
  {
    SortBy(x => orders.distractorKey(number, targets, x), DistractorPool(records, state, Groups(targets), used))
  }

  lemma InRankedPool(records: seq<Record>, state: string, targets: seq<Record>, used: set<int>, number: nat,
                     orders: Orders, x: Record)
    ensures x in RankedPool(records, state, targets, used, number, orders)
            <==> x in DistractorPool(records, state, Groups(targets), used)
    ensures x in DistractorPool(records, state, Groups(targets), used) ==> x.statute !in used
  {
    hide SortBy;
    SortMember(y => orders.distractorKey(number, targets, y), DistractorPool(records, state, Groups(targets), used), x);
  }

  lemma AskedStatutes(records: seq<Record>, state: string)
    requires AskedOnce(records)
    ensures forall x, y | x in Asked(records, state) && y in Asked(records, state) && x.statute == y.statute :: x == y
  {
  }

  lemma Unused(ranked: seq<Record>, used: set<int>)
    requires forall x | x in ranked :: x.statute !in used
    ensures Statutes(ranked) !! used
  {
    StatutesAre(ranked);
    hide Statutes;
  }

  // ---------------------------------------------------------------- one state

  /** Targets found, the case is completed exactly when the state has records enough. */
  lemma CaseIsBuiltIff(records: seq<Record>, state: string, targets: seq<Record>, number: nat, wanted: nat, orders: Orders)
    requires AskedOnce(records) && DistinctGroups(targets) && DistinctStatutes(targets)
    requires forall t | t in targets :: t in records && t.state == state && HasOpposite(records, t)
    ensures CaseOf(records, state, targets, number, wanted, orders).Some?
            <==> |Asked(records, state)| >= |targets| + wanted
    ensures CaseOf(records, state, targets, number, wanted, orders).Some? ==>
      CaseOf(records, state, targets, number, wanted, orders).value.state == state
  {
    hide Statutes, DistinctStatutes, Asked, AskedOnce, FirstNegatives, DistractorsOf, HasOpposite;
    var key := (t, x) => orders.negativeKey(number, t, x);
    ForeignStatutes(records, state, targets);
    NegativesFound(records, state, targets, Statutes(targets), key);
    var negatives := FirstNegatives(records, targets, Statutes(targets), key).value;
    EnoughDistractorsIff(records, state, targets, negatives, number, wanted, orders);
  }

  lemma ForeignStatutes(records: seq<Record>, state: string, targets: seq<Record>)
    requires AskedOnce(records) && forall t | t in targets :: t in records && t.state == state
    ensures forall r | r in records && r.state != state :: r.statute !in Statutes(targets)
  {
    StatutesAre(targets);
    hide Statutes;
  }

  /** From `p` to `q` one state has given one case, of groups it had not used. */
  ghost predicate GivesOne(plan: Plan, records: seq<Record>, state: string, p: Progress, q: Progress) {
    && |q.cases| == |p.cases| + 1 && q.cases[..|p.cases|] == p.cases && q.cases[|p.cases|].state == state
    && (forall other | other != state :: UsedIn(q.used, other) == UsedIn(p.used, other))
    && UsedIn(q.used, state) <= Groups(Eligible(records, records, state))
    && |UsedIn(q.used, state)| == |UsedIn(p.used, state)| + plan.fields
  }

  ghost predicate CanGive(plan: Plan, records: seq<Record>, state: string, used: set<int>) {
    && |Answerable(records, state)| >= |used| + plan.fields
    && |Asked(records, state)| >= plan.fields + plan.distractors
  }

  function RankedTargets(records: seq<Record>, state: string, round: nat, orders: Orders): seq<Record> {
    SortBy(x => orders.targetKey(round, state, x), Eligible(records, records, state))
  }

  lemma InRankedTargets(records: seq<Record>, state: string, round: nat, orders: Orders, x: Record)
    ensures x in RankedTargets(records, state, round, orders) <==> x in Eligible(records, records, state)
    ensures x in RankedTargets(records, state, round, orders)
            <==> x in records && x.state == state && HasOpposite(records, x)
  {
    hide SortBy, Eligible;
    SortMember(y => orders.targetKey(round, state, y), Eligible(records, records, state), x);
    EligibleIff(records, records, state, x);
  }

  lemma RankedGroups(records: seq<Record>, state: string, round: nat, orders: Orders)
    ensures Groups(RankedTargets(records, state, round, orders)) == Groups(Eligible(records, records, state))
  {
    hide RankedTargets, Eligible, Groups, HasOpposite;
    var ranked := RankedTargets(records, state, round, orders);
    forall x ensures x in ranked <==> x in Eligible(records, records, state) {
      InRankedTargets(records, state, round, orders, x);
    }
    GroupsAre(ranked);
    GroupsAre(Eligible(records, records, state));
  }

  /** Whether a state has targets for one more case depends on how many groups it has used. */
  lemma TargetsFoundIff(plan: Plan, records: seq<Record>, state: string, round: nat, orders: Orders, used: set<int>)
    requires plan.Valid() && AskedOnce(records) && used <= Groups(Eligible(records, records, state))
    ensures var targets := FirstTargets(RankedTargets(records, state, round, orders), used, plan.fields);
      && (|targets| == plan.fields <==> |Answerable(records, state)| >= |used| + plan.fields)
      && DistinctGroups(targets) && DistinctStatutes(targets) && Groups(targets) !! used
      && Groups(targets) <= Groups(Eligible(records, records, state))
      && forall t | t in targets :: t in records && t.state == state && HasOpposite(records, t)
  {
    hide RankedTargets, Eligible, FirstTargets, HasOpposite, Groups, Answerable, DistinctGroups, DistinctStatutes;
    var ranked := RankedTargets(records, state, round, orders);
    var targets := FirstTargets(ranked, used, plan.fields);
    forall x | x in ranked ensures x in records && x.state == state && HasOpposite(records, x) {
      InRankedTargets(records, state, round, orders, x);
    }
    RankedGroups(records, state, round, orders);
    TargetsAreDistinct(ranked, used, plan.fields);
    EligibleGroups(records, state);
    EnoughTargetsIff(ranked, used, plan.fields);
    GroupsAre(targets);
    GroupsAre(ranked);
  }

  /** A state gives a case exactly when it has groups enough left and records enough in all. */
  lemma StateGivesIff(plan: Plan, records: seq<Record>, state: string, round: nat, orders: Orders, p: Progress)
    requires plan.Valid() && AskedOnce(records)
    requires UsedIn(p.used, state) <= Groups(Eligible(records, records, state))
    ensures CanGive(plan, records, state, UsedIn(p.used, state)) ==>
      GivesOne(plan, records, state, p, AfterState(plan, records, state, round, orders, p))
    ensures !CanGive(plan, records, state, UsedIn(p.used, state)) ==>
      AfterState(plan, records, state, round, orders, p) == p
  {
    assert plan.fields > 0 && plan.distractors >= 0;
    hide *;
    var used := UsedIn(p.used, state);
    var targets := FirstTargets(RankedTargets(records, state, round, orders), used, plan.fields);
    TargetsFoundIff(plan, records, state, round, orders, used);
    StateUnfold(plan, records, state, round, orders, p);
    CanGiveIs(plan, records, state, used);
    if |targets| == plan.fields {
      CaseIsBuiltIff(records, state, targets, |p.cases| + 1, plan.distractors, orders);
      DistinctGroupsCount(targets);
      var c := CaseOf(records, state, targets, |p.cases| + 1, plan.distractors, orders);
      if c.Some? {
        OneIsGiven(plan, records, state, p, c.value, Groups(targets));
      }
    }
  }

  lemma CanGiveIs(plan: Plan, records: seq<Record>, state: string, used: set<int>)
    ensures CanGive(plan, records, state, used)
            <==> |Answerable(records, state)| >= |used| + plan.fields
                 && |Asked(records, state)| >= plan.fields + plan.distractors
  {
    hide Answerable, Asked;
  }

  lemma StateUnfold(plan: Plan, records: seq<Record>, state: string, round: nat, orders: Orders, p: Progress)
    requires plan.Valid()
    ensures var targets := FirstTargets(RankedTargets(records, state, round, orders), UsedIn(p.used, state), plan.fields);
      var c := CaseOf(records, state, targets, |p.cases| + 1, plan.distractors, orders);
      AfterState(plan, records, state, round, orders, p)
      == if |targets| != plan.fields || c.None? then p
         else Progress(p.cases + [c.value], p.used[state := UsedIn(p.used, state) + Groups(targets)])
  {
    hide SortBy, Eligible, FirstTargets, Groups, CaseOf, UsedIn;
  }

  lemma OneIsGiven(plan: Plan, records: seq<Record>, state: string, p: Progress, c: Case, groups: set<int>)
    requires c.state == state && |groups| == plan.fields && groups !! UsedIn(p.used, state)
    requires UsedIn(p.used, state) + groups <= Groups(Eligible(records, records, state))
    ensures GivesOne(plan, records, state, p, Progress(p.cases + [c], p.used[state := UsedIn(p.used, state) + groups]))
  {
    hide Groups, Eligible;
  }

  // ---------------------------------------------------------------- whole runs

  /** A state has used F groups for each of its cases, which are no more than its quota. */
  ghost predicate Tallied(plan: Plan, records: seq<Record>, p: Progress, state: string)
    requires plan.Valid()
  {
    && UsedIn(p.used, state) <= Groups(Eligible(records, records, state))
    && |UsedIn(p.used, state)| == plan.fields * CasesIn(p.cases, state)
    && CasesIn(p.cases, state) <= Quota(records, plan, state)
  }

  ghost predicate AllTallied(plan: Plan, records: seq<Record>, p: Progress)
    requires plan.Valid()
  {
    forall state :: Tallied(plan, records, p, state)
  }

  function Min(a: nat, b: nat): nat {
    if a <= b then a else b
  }

  lemma QuotientIff(a: nat, f: nat, g: nat)
    requires f >= 1
    ensures a >= f * g + f <==> g < a / f
    ensures f * (g + 1) == f * g + f
  {
    var q := a / f;
    assert a == f * q + a % f && 0 <= a % f < f;
    if g < q {
      assert f * (g + 1) <= f * q;
    } else {
      assert f * q <= f * g;
    }
  }

  lemma CasesInAppend(cases: seq<Case>, c: Case, state: string)
    ensures CasesIn(cases + [c], state) == CasesIn(cases, state) + if c.state == state then 1 else 0
  {
    assert (cases + [c])[..|cases|] == cases;
  }

  lemma CanGiveIff(plan: Plan, records: seq<Record>, p: Progress, state: string)
    requires plan.Valid() && Tallied(plan, records, p, state)
    ensures CanGive(plan, records, state, UsedIn(p.used, state)) <==> CasesIn(p.cases, state) < Quota(records, plan, state)
  {
    QuotientIff(|Answerable(records, state)|, plan.fields, CasesIn(p.cases, state));
    hide UsedIn, CasesIn, Answerable, Asked, Groups, Eligible;
  }

  lemma GivenCounts(plan: Plan, records: seq<Record>, state: string, p: Progress, q: Progress, other: string)
    requires plan.Valid() && GivesOne(plan, records, state, p, q)
    requires CasesIn(p.cases, state) < Quota(records, plan, state)
    requires Tallied(plan, records, p, state) && Tallied(plan, records, p, other)
    ensures Tallied(plan, records, q, other) && p.cases < q.cases
    ensures CasesIn(q.cases, other) == CasesIn(p.cases, other) + if other == state then 1 else 0
  {
    hide UsedIn, CasesIn, Groups, Eligible, Quota;
    assert q.cases == p.cases + [q.cases[|p.cases|]];
    CasesInAppend(p.cases, q.cases[|p.cases|], other);
    QuotientIff(0, plan.fields, CasesIn(p.cases, state));
  }

  /** One visit brings a state one case nearer to its quota and touches no other. */
  lemma VisitCounts(plan: Plan, records: seq<Record>, state: string, round: nat, orders: Orders, p: Progress, other: string)
    requires plan.Valid() && AskedOnce(records) && AllTallied(plan, records, p)
    ensures var q := AfterState(plan, records, state, round, orders, p);
      && Tallied(plan, records, q, other) && p.cases <= q.cases && |q.cases| <= |p.cases| + 1
      && CasesIn(q.cases, other)
         == if other == state then Min(CasesIn(p.cases, state) + 1, Quota(records, plan, state)) else CasesIn(p.cases, other)
  {
    hide AskedOnce, Quota, AfterState, UsedIn, CasesIn, AllTallied, Tallied, GivesOne, CanGive, Groups, Eligible;
    var q := AfterState(plan, records, state, round, orders, p);
    TalliedIn(plan, records, p, state);
    TalliedIn(plan, records, p, other);
    StateGivesIff(plan, records, state, round, orders, p);
    CanGiveIff(plan, records, p, state);
    OneAtMost(plan, records, state, round, orders, p);
    if CasesIn(p.cases, state) < Quota(records, plan, state) {
      GivenCounts(plan, records, state, p, q, other);
    }
  }

  lemma TalliedIn(plan: Plan, records: seq<Record>, p: Progress, state: string)
    requires plan.Valid() && AllTallied(plan, records, p)
    ensures Tallied(plan, records, p, state)
    ensures UsedIn(p.used, state) <= Groups(Eligible(records, records, state))
    ensures CasesIn(p.cases, state) <= Quota(records, plan, state)
  {
    hide UsedIn, CasesIn, Groups, Eligible, Quota;
    assert Tallied(plan, records, p, state);
  }

  lemma VisitKeeps(plan: Plan, records: seq<Record>, state: string, round: nat, orders: Orders, p: Progress)
    requires plan.Valid() && AskedOnce(records) && AllTallied(plan, records, p) && |p.cases| < plan.caseCount
    ensures var q := AfterState(plan, records, state, round, orders, p);
      && AllTallied(plan, records, q) && |q.cases| <= plan.caseCount && p.cases <= q.cases
      && CasesIn(q.cases, state) >= Min(CasesIn(p.cases, state) + 1, Quota(records, plan, state))
      && forall other :: CasesIn(q.cases, other) >= CasesIn(p.cases, other)
  {
    hide AskedOnce, Tallied, CasesIn, AfterState, Quota;
    var q := AfterState(plan, records, state, round, orders, p);
    forall other ensures Tallied(plan, records, q, other) && CasesIn(q.cases, other) >= CasesIn(p.cases, other) {
      VisitCounts(plan, records, state, round, orders, p, other);
      TalliedIn(plan, records, p, other);
    }
    VisitCounts(plan, records, state, round, orders, p, state);
  }

  ghost predicate Nearer(plan: Plan, records: seq<Record>, states: seq<string>, p: Progress, q: Progress)
    requires plan.Valid()
  {
    forall state | state in states ::
      CasesIn(q.cases, state) >= Min(CasesIn(p.cases, state) + 1, Quota(records, plan, state))
  }

  lemma NearerAfterAll(plan: Plan, records: seq<Record>, states: seq<string>, p: Progress, p': Progress, q: Progress)
    requires plan.Valid() && states != [] && Nearer(plan, records, states[1..], p', q)
    requires CasesIn(p'.cases, states[0]) >= Min(CasesIn(p.cases, states[0]) + 1, Quota(records, plan, states[0]))
    requires forall other :: CasesIn(p'.cases, other) >= CasesIn(p.cases, other)
    requires forall other :: CasesIn(q.cases, other) >= CasesIn(p'.cases, other)
    ensures Nearer(plan, records, states, p, q)
  {
    hide CasesIn, Quota;
    assert states == [states[0]] + states[1..];
  }

  /** After a pass that is not cut short every state is one case nearer to its quota. */
  lemma {:induction false} PassCounts(plan: Plan, records: seq<Record>, states: seq<string>, round: nat, orders: Orders,
                                      p: Progress)
    requires plan.Valid() && AskedOnce(records) && AllTallied(plan, records, p) && |p.cases| <= plan.caseCount
    ensures var q := AfterStates(plan, records, states, round, orders, p);
      && AllTallied(plan, records, q) && |q.cases| <= plan.caseCount && p.cases <= q.cases
      && (forall state :: CasesIn(q.cases, state) >= CasesIn(p.cases, state))
      && (|q.cases| == plan.caseCount || Nearer(plan, records, states, p, q))
    decreases |states|
  {
    hide AskedOnce, AllTallied, CasesIn, AfterState, Quota;
    if states != [] && |p.cases| != plan.caseCount {
      hide Nearer, Min;
      var p' := AfterState(plan, records, states[0], round, orders, p);
      VisitKeeps(plan, records, states[0], round, orders, p);
      PassCounts(plan, records, states[1..], round, orders, p');
      var q := AfterStates(plan, records, states, round, orders, p);
      if |q.cases| != plan.caseCount {
        NearerAfterAll(plan, records, states, p, p', q);
      }
    }
  }

  ghost predicate QuotasFilled(plan: Plan, records: seq<Record>, states: seq<string>, p: Progress)
    requires plan.Valid()
  {
    forall state | state in states :: CasesIn(p.cases, state) >= Quota(records, plan, state)
  }

  ghost predicate FilledUpTo(plan: Plan, records: seq<Record>, states: seq<string>, p: Progress, round: nat)
    requires plan.Valid()
  {
    forall state | state in states :: CasesIn(p.cases, state) >= Min(round, Quota(records, plan, state))
  }

  /** The rounds end with cases enough or with every quota filled. */
  lemma {:induction false} RoundsCount(plan: Plan, records: seq<Record>, states: seq<string>, round: nat, rounds: nat,
                                       orders: Orders, p: Progress)
    requires plan.Valid() && AskedOnce(records) && AllTallied(plan, records, p)
    requires |p.cases| < plan.caseCount && round <= rounds && FilledUpTo(plan, records, states, p, round)
    requires forall state | state in states :: Quota(records, plan, state) <= rounds
    ensures var q := AfterRounds(plan, records, states, round, rounds, orders, p);
      && AllTallied(plan, records, q) && |q.cases| <= plan.caseCount
      && (|q.cases| == plan.caseCount || QuotasFilled(plan, records, states, q))
    decreases rounds - round
  {
    hide AskedOnce, AllTallied, CasesIn, Quota, AfterStates;
    if round != rounds {
      var q := AfterStates(plan, records, states, round, orders, p);
      PassCounts(plan, records, states, round, orders, p);
      if |q.cases| == |p.cases| {
        assert q.cases == p.cases;
      } else if |q.cases| != plan.caseCount {
        RoundsCount(plan, records, states, round + 1, rounds, orders, q);
      }
    }
  }

  // ---------------------------------------------------------------- the number of cases

  lemma {:induction false} StatesListed(records: seq<Record>)
    ensures AllDifferent(StatesOf(records))
    ensures forall state :: state in StatesOf(records) <==> exists r :: r in records && r.state == state
  {
    if records != [] {
      var init, last := records[..|records| - 1], records[|records| - 1];
      StatesListed(init);
      assert records == init + [last];
    }
  }

  lemma {:induction false} InsertStateMember(key: string -> int, state: string, sorted: seq<string>, x: string)
    ensures x in InsertState(key, state, sorted) <==> x == state || x in sorted
  {
    if !(sorted == [] || key(state) < key(sorted[0])
         || (key(state) == key(sorted[0]) && LexLess(state, sorted[0]))) {
      InsertStateMember(key, state, sorted[1..], x);
      assert sorted == [sorted[0]] + sorted[1..];
    }
  }

  lemma {:induction false} EligibleStateIff(records: seq<Record>, states: seq<string>, fields: nat, key: string -> int,
                                            x: string)
    ensures x in EligibleStates(records, states, fields, key)
            <==> x in states && |Groups(Eligible(records, records, x))| >= fields
  {
    hide Eligible, Groups, InsertState;
    if states != [] {
      var n := |states| - 1;
      EligibleStateIff(records, states[..n], fields, key, x);
      InsertStateMember(key, states[n], EligibleStates(records, states[..n], fields, key), x);
      assert states == states[..n] + [states[n]];
    }
  }

  /** The number of rounds a state's question groups would fill. */
  function RoundsIn(records: seq<Record>, state: string, fields: nat): nat
    requires fields >= 1
  {
    |Groups(Eligible(records, records, state))| / fields
  }

  lemma MaxRoundsUnfold(records: seq<Record>, states: seq<string>, fields: nat)
    requires fields >= 1 && states != []
    ensures var n := |states| - 1;
      MaxRounds(records, states, fields)
      == MaxInt(RoundsIn(records, states[n], fields), MaxRounds(records, states[..n], fields))
  {
    hide Groups, Eligible;
  }

  /** The number of rounds is the largest quotient of question groups by fields. */
  lemma {:induction false} MaxRoundsIsLargest(records: seq<Record>, states: seq<string>, fields: nat)
    requires fields >= 1
    ensures forall state | state in states :: RoundsIn(records, state, fields) <= MaxRounds(records, states, fields)
    ensures MaxRounds(records, states, fields) == 0
            || exists state :: state in states && MaxRounds(records, states, fields) == RoundsIn(records, state, fields)
  {
    hide RoundsIn;
    if states != [] {
      var n := |states| - 1;
      MaxRoundsUnfold(records, states, fields);
      MaxRoundsIsLargest(records, states[..n], fields);
      hide MaxRounds;
      assert states == states[..n] + [states[n]];
    }
  }

  lemma {:induction false} SumOfCases(cases: seq<Case>, states: seq<string>)
    requires AllDifferent(states) && forall c | c in cases :: c.state in states
    ensures CasesAmong(cases, states) == |cases|
  {
    if cases == [] {
      NoneAmong(states);
    } else {
      var init, last := cases[..|cases| - 1], cases[|cases| - 1];
      SumOfCases(init, states);
      assert cases == init + [last];
      OneMoreAmong(init, last, states);
    }
  }

  function CasesAmong(cases: seq<Case>, states: seq<string>): nat {
    if states == [] then 0 else CasesAmong(cases, states[..|states| - 1]) + CasesIn(cases, states[|states| - 1])
  }

  lemma {:induction false} NoneAmong(states: seq<string>)
    ensures CasesAmong([], states) == 0
  {
    if states != [] {
      NoneAmong(states[..|states| - 1]);
    }
  }

  lemma {:induction false} OneMoreAmong(cases: seq<Case>, c: Case, states: seq<string>)
    requires AllDifferent(states)
    ensures CasesAmong(cases + [c], states) == CasesAmong(cases, states) + if c.state in states then 1 else 0
  {
    hide CasesIn;
    if states != [] {
      var n := |states| - 1;
      OneMoreAmong(cases, c, states[..n]);
      CasesInAppend(cases, c, states[n]);
      assert states == states[..n] + [states[n]];
    }
  }

  lemma {:induction false} AmongQuotas(plan: Plan, records: seq<Record>, p: Progress, states: seq<string>)
    requires plan.Valid() && AllTallied(plan, records, p)
    ensures CasesAmong(p.cases, states) <= Capacity(records, plan, states)
    ensures QuotasFilled(plan, records, states, p) ==> CasesAmong(p.cases, states) == Capacity(records, plan, states)
  {
    hide CasesIn, Quota, Tallied;
    if states != [] {
      var n := |states| - 1;
      AmongQuotas(plan, records, p, states[..n]);
      assert states == states[..n] + [states[n]];
      TalliedIn(plan, records, p, states[n]);
    }
  }

  ghost predicate CasesFrom(cases: seq<Case>, states: seq<string>) {
    forall c | c in cases :: c.state in states
  }

  lemma VisitFrom(plan: Plan, records: seq<Record>, states: seq<string>, state: string, round: nat, orders: Orders,
                  p: Progress)
    requires plan.Valid() && CasesFrom(p.cases, states) && state in states
    ensures CasesFrom(AfterState(plan, records, state, round, orders, p).cases, states)
  {
    StateUnfold(plan, records, state, round, orders, p);
    hide AfterState, FirstTargets, RankedTargets, Groups, FirstNegatives, DistractorsOf, Statutes, Collect;
  }

  lemma {:induction false} PassFrom(plan: Plan, records: seq<Record>, states: seq<string>, todo: seq<string>, round: nat,
                                    orders: Orders, p: Progress)
    requires plan.Valid() && CasesFrom(p.cases, states) && forall state | state in todo :: state in states
    ensures CasesFrom(AfterStates(plan, records, todo, round, orders, p).cases, states)
    decreases |todo|
  {
    hide AfterState, CasesFrom;
    if todo != [] && |p.cases| != plan.caseCount {
      VisitFrom(plan, records, states, todo[0], round, orders, p);
      PassFrom(plan, records, states, todo[1..], round, orders,
        AfterState(plan, records, todo[0], round, orders, p));
    }
  }

  lemma {:induction false} RoundsFrom(plan: Plan, records: seq<Record>, states: seq<string>, todo: seq<string>,
                                      round: nat, rounds: nat, orders: Orders, p: Progress)
    requires plan.Valid() && CasesFrom(p.cases, states) && round <= rounds
    requires forall state | state in todo :: state in states
    ensures CasesFrom(AfterRounds(plan, records, todo, round, rounds, orders, p).cases, states)
    decreases rounds - round
  {
    hide AfterStates, CasesFrom;
    if round != rounds {
      PassFrom(plan, records, states, todo, round, orders, p);
      var q := AfterStates(plan, records, todo, round, orders, p);
      if |q.cases| != plan.caseCount && |q.cases| != |p.cases| {
        RoundsFrom(plan, records, states, todo, round + 1, rounds, orders, q);
      }
    }
  }

  lemma QuotaBounds(records: seq<Record>, plan: Plan, state: string)
    requires plan.Valid() && AskedOnce(records)
    ensures Quota(records, plan, state) <= RoundsIn(records, state, plan.fields)
    ensures |Groups(Eligible(records, records, state))| < plan.fields ==> Quota(records, plan, state) == 0
  {
    EligibleGroups(records, state);
    QuotaIs(records, plan, state);
    RoundsInIs(records, state, plan.fields);
    hide *;
    SmallQuotient(|Answerable(records, state)|, plan.fields);
  }

  lemma RoundsInIs(records: seq<Record>, state: string, fields: nat)
    requires fields >= 1
    ensures RoundsIn(records, state, fields) == |Groups(Eligible(records, records, state))| / fields
  {
  }

  lemma QuotaIs(records: seq<Record>, plan: Plan, state: string)
    requires plan.Valid()
    ensures plan.fields >= 1
    ensures Quota(records, plan, state) == |Answerable(records, state)| / plan.fields || Quota(records, plan, state) == 0
  {
    hide Asked, Answerable;
  }

  lemma SmallQuotient(a: nat, f: nat)
    requires f >= 1
    ensures a / f >= 0 && (a < f ==> a / f == 0)
  {
  }

  /** The run of rounds that makes the cases of a plan. */
  function Outcome(records: seq<Record>, plan: Plan, orders: Orders): Progress
    requires plan.Valid()
  {
    AfterRounds(plan, records, EligibleStates(records, StatesOf(records), plan.fields, orders.stateKey), 0,
      MaxRounds(records, StatesOf(records), plan.fields), orders, Progress([], map[]))
  }

  lemma NothingTallied(plan: Plan, records: seq<Record>, states: seq<string>)
    requires plan.Valid()
    ensures AllTallied(plan, records, Progress([], map[]))
    ensures FilledUpTo(plan, records, states, Progress([], map[]), 0)
  {
    hide Quota, Groups, Eligible;
    assert plan.fields * 0 == 0;
  }

  lemma OutcomeFills(records: seq<Record>, plan: Plan, orders: Orders)
    requires plan.Valid() && AskedOnce(records)
    ensures var q := Outcome(records, plan, orders);
      && AllTallied(plan, records, q) && |q.cases| <= plan.caseCount && CasesFrom(q.cases, StatesOf(records))
      && (|q.cases| == plan.caseCount || QuotasFilled(plan, records, StatesOf(records), q))
  {
    hide AskedOnce, AllTallied, Quota, CasesIn, Groups, Eligible, AfterRounds, EligibleStates, StatesOf, MaxRounds, RoundsIn;
    var all := StatesOf(records);
    var states := EligibleStates(records, all, plan.fields, orders.stateKey);
    var rounds := MaxRounds(records, all, plan.fields);
    MaxRoundsIsLargest(records, all, plan.fields);
    forall state ensures (state in states ==> state in all && Quota(records, plan, state) <= rounds)
                         && (state in all && state !in states ==> Quota(records, plan, state) == 0)
    {
      EligibleStateIff(records, all, plan.fields, orders.stateKey, state);
      QuotaBounds(records, plan, state);
    }
    NothingTallied(plan, records, states);
    RoundsCount(plan, records, states, 0, rounds, orders, Progress([], map[]));
    RoundsFrom(plan, records, all, states, 0, rounds, orders, Progress([], map[]));
  }

  /** With every statute in one record and every group asked once in a state, the builder makes all the cases
      asked for or all the quotas allow, whatever the orders are; a call succeeds exactly up to that capacity. */
  lemma BuildsUpToCapacity(records: seq<Record>, plan: Plan, orders: Orders)
    requires plan.Valid() && AskedOnce(records)
    ensures |CasesOf(records, plan, orders)| == Min(plan.caseCount, Capacity(records, plan, StatesOf(records)))
    ensures forall state :: CasesIn(CasesOf(records, plan, orders), state) <= Quota(records, plan, state)
  {
    var states := StatesOf(records);
    var q := Outcome(records, plan, orders);
    hide AfterRounds, EligibleStates, StatesOf, MaxRounds, Quota, CasesIn, AskedOnce;
    assert CasesOf(records, plan, orders) == q.cases;
    OutcomeFills(records, plan, orders);
    StatesListed(records);
    SumOfCases(q.cases, states);
    AmongQuotas(plan, records, q, states);
    forall state ensures CasesIn(q.cases, state) <= Quota(records, plan, state) {
      TalliedIn(plan, records, q, state);
    }
  }

  // ---------------------------------------------------------------- why a call fails

  /** The state of affairs after so many passes over the states. */
  function Passes(plan: Plan, records: seq<Record>, states: seq<string>, orders: Orders, n: nat): Progress
    requires plan.Valid()
  {
    if n == 0 then Progress([], map[])
    else AfterStates(plan, records, states, n - 1, orders, Passes(plan, records, states, orders, n - 1))
  }

  lemma OneAtMost(plan: Plan, records: seq<Record>, state: string, round: nat, orders: Orders, p: Progress)
    requires plan.Valid()
    ensures var q := AfterState(plan, records, state, round, orders, p);
      q == p || |q.cases| == |p.cases| + 1
  {
    StateUnfold(plan, records, state, round, orders, p);
    hide AfterState, FirstTargets, RankedTargets, Groups, CaseOf;
  }

  /** A pass that brings no case has found none in any of the states. */
  lemma {:induction false} EmptyPass(plan: Plan, records: seq<Record>, states: seq<string>, round: nat, orders: Orders,
                                     p: Progress)
    requires plan.Valid() && |p.cases| != plan.caseCount
    ensures |AfterStates(plan, records, states, round, orders, p).cases| >= |p.cases|
    ensures |AfterStates(plan, records, states, round, orders, p).cases| == |p.cases| ==>
      && AfterStates(plan, records, states, round, orders, p) == p
      && forall state | state in states :: AfterState(plan, records, state, round, orders, p) == p
    decreases |states|
  {
    hide AfterState;
    if states != [] {
      var q := AfterState(plan, records, states[0], round, orders, p);
      OneAtMost(plan, records, states[0], round, orders, p);
      if |q.cases| != plan.caseCount {
        EmptyPass(plan, records, states[1..], round, orders, q);
        hide AfterStates;
        assert forall state | state in states && state != states[0] :: state in states[1..];
      }
    }
  }

  /** Some number of passes was made, and they stopped because there were enough cases, because that is all the
      passes there are, or because no state has another case to give. */
  ghost predicate StoppedAfter(plan: Plan, records: seq<Record>, states: seq<string>, rounds: nat, orders: Orders,
                               cases: seq<Case>, n: nat)
    requires plan.Valid()
  {
    var p := Passes(plan, records, states, orders, n);
    && n <= rounds && cases == p.cases
    && (|cases| == plan.caseCount || n == rounds
        || forall state | state in states :: AfterState(plan, records, state, n, orders, p) == p)
  }

  lemma {:induction false} RoundsStop(plan: Plan, records: seq<Record>, states: seq<string>, round: nat, rounds: nat,
                                      orders: Orders) returns (n: nat)
    requires plan.Valid() && round <= rounds
    requires |Passes(plan, records, states, orders, round).cases| != plan.caseCount
    ensures StoppedAfter(plan, records, states, rounds, orders,
              AfterRounds(plan, records, states, round, rounds, orders, Passes(plan, records, states, orders, round)).cases, n)
    decreases rounds - round
  {
    hide AfterStates, AfterState;
    var p := Passes(plan, records, states, orders, round);
    n := round;
    if round != rounds {
      var q := AfterStates(plan, records, states, round, orders, p);
      assert q == Passes(plan, records, states, orders, round + 1);
      EmptyPass(plan, records, states, round, orders, p);
      if |q.cases| == plan.caseCount {
        n := round + 1;
      } else if |q.cases| != |p.cases| {
        n := RoundsStop(plan, records, states, round + 1, rounds, orders);
      }
    }
  }

  /** For any records: a valid plan fails only after as many passes as the largest quotient allows, or when no state
      with enough groups can give one more case. */
  lemma FailureHasAReason(records: seq<Record>, plan: Plan, orders: Orders) returns (n: nat)
    requires plan.Valid() && |CasesOf(records, plan, orders)| != plan.caseCount
    ensures var states := EligibleStates(records, StatesOf(records), plan.fields, orders.stateKey);
      var rounds := MaxRounds(records, StatesOf(records), plan.fields);
      var p := Passes(plan, records, states, orders, n);
      && CasesOf(records, plan, orders) == p.cases && |p.cases| < plan.caseCount && n <= rounds
      && (n == rounds || forall state | state in states :: AfterState(plan, records, state, n, orders, p) == p)
  {
    hide EligibleStates, StatesOf, MaxRounds, AfterState, AfterStates, AfterRounds;
    var states := EligibleStates(records, StatesOf(records), plan.fields, orders.stateKey);
    n := RoundsStop(plan, records, states, 0, MaxRounds(records, StatesOf(records), plan.fields), orders);
    PassesFit(plan, records, states, orders, n);
  }

  lemma {:induction false} PassesFit(plan: Plan, records: seq<Record>, states: seq<string>, orders: Orders, n: nat)
    requires plan.Valid()
    ensures |Passes(plan, records, states, orders, n).cases| <= plan.caseCount
  {
    hide AfterStates;
    if n != 0 {
      PassesFit(plan, records, states, orders, n - 1);
      PassFits(plan, records, states, n - 1, orders, Passes(plan, records, states, orders, n - 1));
    }
  }

  lemma {:induction false} PassFits(plan: Plan, records: seq<Record>, states: seq<string>, round: nat, orders: Orders,
                                    p: Progress)
    requires plan.Valid() && |p.cases| <= plan.caseCount
    ensures |AfterStates(plan, records, states, round, orders, p).cases| <= plan.caseCount
    decreases |states|
  {
    if states != [] && |p.cases| != plan.caseCount {
      var q := AfterState(plan, records, states[0], round, orders, p);
      hide AfterState;
      OneAtMost(plan, records, states[0], round, orders, p);
      PassFits(plan, records, states[1..], round, orders, q);
    }
  }

  // ---------------------------------------------------------------- order of preference

  ghost predicate Ascending(key: Record -> int, rs: seq<Record>) {
    forall i, j | 0 <= i < j < |rs| :: key(rs[i]) <= key(rs[j])
  }

  lemma {:induction false} InsertAscends(key: Record -> int, r: Record, sorted: seq<Record>)
    requires Ascending(key, sorted)
    ensures Ascending(key, Insert(key, r, sorted))
  {
    if sorted != [] && key(r) >= key(sorted[0]) {
      InsertAscends(key, r, sorted[1..]);
      var rest := Insert(key, r, sorted[1..]);
      forall x | x in rest ensures key(sorted[0]) <= key(x) {
        InsertMember(key, r, sorted[1..], x);
      }
      assert forall i | 0 <= i < |rest| :: rest[i] in rest;
    }
  }

  lemma {:induction false} SortAscends(key: Record -> int, rs: seq<Record>)
    ensures Ascending(key, SortBy(key, rs))
  {
    if rs != [] {
      SortAscends(key, rs[..|rs| - 1]);
      InsertAscends(key, rs[|rs| - 1], SortBy(key, rs[..|rs| - 1]));
    }
  }

  /** The records with one key, in order. */
  function WithKey(key: Record -> int, k: int, rs: seq<Record>): seq<Record> {
    if rs == [] then [] else (if key(rs[0]) == k then [rs[0]] else []) + WithKey(key, k, rs[1..])
  }

  lemma {:induction false} WithKeyAppend(key: Record -> int, k: int, rs: seq<Record>, r: Record)
    ensures WithKey(key, k, rs + [r]) == WithKey(key, k, rs) + if key(r) == k then [r] else []
  {
    if rs != [] {
      WithKeyAppend(key, k, rs[1..], r);
      assert (rs + [r])[1..] == rs[1..] + [r];
    }
  }

  lemma {:induction false} NoneWithKey(key: Record -> int, k: int, rs: seq<Record>)
    requires forall x | x in rs :: key(x) != k
    ensures WithKey(key, k, rs) == []
  {
    if rs != [] {
      NoneWithKey(key, k, rs[1..]);
    }
  }

  lemma {:induction false} InsertIsLast(key: Record -> int, r: Record, sorted: seq<Record>, k: int)
    requires Ascending(key, sorted)
    ensures WithKey(key, k, Insert(key, r, sorted)) == WithKey(key, k, sorted) + if key(r) == k then [r] else []
  {
    if sorted == [] {
    } else if key(r) < key(sorted[0]) {
      assert ([r] + sorted)[1..] == sorted;
      if key(r) == k {
        assert forall i | 0 <= i < |sorted| :: key(sorted[0]) <= key(sorted[i]);
        NoneWithKey(key, k, sorted);
      }
    } else {
      InsertIsLast(key, r, sorted[1..], k);
      var rest := Insert(key, r, sorted[1..]);
      assert ([sorted[0]] + rest)[1..] == rest;
    }
  }

  /** The sort is stable, and hence keeps every record as often as it comes. */
  lemma {:induction false} SortIsStable(key: Record -> int, rs: seq<Record>, k: int)
    ensures WithKey(key, k, SortBy(key, rs)) == WithKey(key, k, rs)
  {
    if rs != [] {
      var init, last := rs[..|rs| - 1], rs[|rs| - 1];
      SortIsStable(key, init, k);
      SortAscends(key, init);
      InsertIsLast(key, last, SortBy(key, init), k);
      WithKeyAppend(key, k, init, last);
      assert rs == init + [last];
    }
  }

  lemma LastIsGreatest(key: Record -> int, init: seq<Record>, last: Record)
    requires Ascending(key, init + [last])
    ensures Ascending(key, init) && forall x | x in init :: key(x) <= key(last)
  {
    forall i, j | 0 <= i < j < |init| ensures key(init[i]) <= key(init[j]) {
      assert (init + [last])[i] == init[i] && (init + [last])[j] == init[j];
    }
    forall x | x in init ensures key(x) <= key(last) {
      var i :| 0 <= i < |init| && init[i] == x;
      assert (init + [last])[i] == x && (init + [last])[|init|] == last;
    }
  }

  /** No eligible record that would still fit beside the targets ranks before one of them. */
  lemma {:induction false} TargetsAreBest(key: Record -> int, ranked: seq<Record>, previously: set<int>, fields: nat,
                                          t: Record, y: Record)
    requires Ascending(key, ranked) && y in ranked
    requires var targets := FirstTargets(ranked, previously, fields);
      && t in targets && y.group !in previously && y.group !in Groups(targets) && y.statute !in Statutes(targets)
    ensures key(t) <= key(y)
  {
    hide Groups, Statutes;
    var init, last := ranked[..|ranked| - 1], ranked[|ranked| - 1];
    assert ranked == init + [last];
    LastIsGreatest(key, init, last);
    var front := FirstTargets(init, previously, fields);
    TargetsAreDistinct(init, previously, fields);
    AppendSets(front, last);
    if y in init && t in front && FirstTargets(ranked, previously, fields) == front {
      TargetsAreBest(key, init, previously, fields, t, y);
    }
  }

  /** No unused distractor left out ranks before one that was taken. */
  lemma {:induction false} DistractorsAreBest(key: Record -> int, pool: seq<Record>, used: set<int>, wanted: nat,
                                              d: Record, y: Record)
    requires Ascending(key, pool) && y in pool && y.statute !in used
    requires d in FirstDistractors(pool, used, wanted) && y.statute !in Statutes(FirstDistractors(pool, used, wanted))
    ensures key(d) <= key(y)
  {
    hide Statutes;
    var init, last := pool[..|pool| - 1], pool[|pool| - 1];
    assert pool == init + [last];
    LastIsGreatest(key, init, last);
    var front := FirstDistractors(init, used, wanted);
    DistractorsAreDistinct(init, used, wanted);
    AppendSets(front, last);
    if y in init {
      MemberSets(init, y);
      if d in front && FirstDistractors(pool, used, wanted) == front {
        DistractorsAreBest(key, init, used, wanted, d, y);
      }
    }
  }

  lemma {:induction false} NextUnusedIsFirst(key: Record -> int, ranked: seq<Record>, used: set<int>, y: Record)
    requires Ascending(key, ranked) && y in ranked && y.statute !in used
    ensures NextUnused(ranked, used).Some? && NextUnused(ranked, used).value.statute !in used
    ensures key(NextUnused(ranked, used).value) <= key(y)
  {
    if ranked[0].statute in used {
      assert ranked == [ranked[0]] + ranked[1..];
      NextUnusedIsFirst(key, ranked[1..], used, y);
    }
  }

  /** Each hard negative is the best ranked opposite among those whose statute is not used before it. */
  lemma {:induction false} NegativesAreBest(records: seq<Record>, targets: seq<Record>, own: set<int>,
                                            key: (Record, Record) -> int, i: nat, y: Record)
    requires i < |targets| && FirstNegatives(records, targets, own, key).Some?
    requires |FirstNegatives(records, targets, own, key).value| == |targets|
    requires y in records && IsOpposite(targets[i], y)
    requires y.statute !in own + Statutes(FirstNegatives(records, targets, own, key).value[..i])
    ensures key(targets[i], FirstNegatives(records, targets, own, key).value[i]) <= key(targets[i], y)
  {
    hide Statutes, RankedOpposites, NextUnused;
    var n := |targets| - 1;
    var front := FirstNegatives(records, targets[..n], own, key).value;
    var all := FirstNegatives(records, targets, own, key).value;
    var ranked := RankedOpposites(records, targets[n], key);
    var next := NextUnused(ranked, own + Statutes(front));
    assert all == front + [next.value];
    if i < n {
      assert all[..i] == front[..i] && targets[..n][i] == targets[i];
      NegativesAreBest(records, targets[..n], own, key, i, y);
    } else {
      assert all[..n] == front;
      RankedOpposite(records, targets[n], key, y);
      OppositesAscend(records, targets[n], key);
      NextUnusedIsFirst(x => key(targets[n], x), ranked, own + Statutes(front), y);
    }
  }

  lemma OppositesAscend(records: seq<Record>, r: Record, key: (Record, Record) -> int)
    ensures Ascending(x => key(r, x), RankedOpposites(records, r, key))
  {
    SortAscends(x => key(r, x), Opposites(records, r));
  }

  predicate StateBefore(key: string -> int, a: string, b: string) {
    key(a) < key(b) || (key(a) == key(b) && !LexLess(b, a))
  }

  lemma StateBeforeChain(key: string -> int, a: string, b: string, c: string)
    requires StateBefore(key, a, b) && StateBefore(key, b, c)
    ensures StateBefore(key, a, c)
  {
    if key(a) == key(c) && LexLess(c, a) {
      LexTrichotomy(a, b);
      if a != b {
        LexTransitive(c, a, b);
      }
    }
  }

  ghost predicate StatesAscend(key: string -> int, states: seq<string>) {
    forall i, j | 0 <= i < j < |states| :: StateBefore(key, states[i], states[j])
  }

  lemma StatesPrepend(key: string -> int, state: string, rest: seq<string>)
    requires StatesAscend(key, rest) && forall x | x in rest :: StateBefore(key, state, x)
    ensures StatesAscend(key, [state] + rest)
  {
    hide StateBefore;
    assert forall i | 0 <= i < |rest| :: rest[i] in rest;
  }

  lemma {:induction false} InsertStateAscends(key: string -> int, state: string, sorted: seq<string>)
    requires StatesAscend(key, sorted)
    ensures StatesAscend(key, InsertState(key, state, sorted))
  {
    if sorted != [] {
      LexTrichotomy(state, sorted[0]);
      forall x | x in sorted[1..] ensures StateBefore(key, sorted[0], x) {
        var i :| 0 <= i < |sorted[1..]| && sorted[1..][i] == x;
        assert sorted[i + 1] == x;
      }
      var tail := sorted[1..];
      forall i, j | 0 <= i < j < |tail| ensures StateBefore(key, tail[i], tail[j]) {
        assert tail[i] == sorted[i + 1] && tail[j] == sorted[j + 1];
      }
    }
    if sorted == [] || key(state) < key(sorted[0])
       || (key(state) == key(sorted[0]) && LexLess(state, sorted[0])) {
      forall x | x in sorted ensures StateBefore(key, state, x) {
        if x != sorted[0] {
          assert sorted == [sorted[0]] + sorted[1..];
          StateBeforeChain(key, state, sorted[0], x);
        }
      }
      StatesPrepend(key, state, sorted);
    } else {
      var rest := InsertState(key, state, sorted[1..]);
      InsertStateAscends(key, state, sorted[1..]);
      forall x | x in rest ensures StateBefore(key, sorted[0], x) {
        InsertStateMember(key, state, sorted[1..], x);
      }
      StatesPrepend(key, sorted[0], rest);
    }
  }

  /** The states come in ascending order of the seed's keys, equal keys by name. */
  lemma {:induction false} EligibleStatesAscend(records: seq<Record>, states: seq<string>, fields: nat, key: string -> int)
    ensures StatesAscend(key, EligibleStates(records, states, fields, key))
  {
    hide Eligible, Groups, InsertState, StatesAscend;
    if states == [] {
      NoStates(key);
    } else {
      var n := |states| - 1;
      EligibleStatesAscend(records, states[..n], fields, key);
      InsertStateAscends(key, states[n], EligibleStates(records, states[..n], fields, key));
    }
  }

  lemma NoStates(key: string -> int)
    ensures StatesAscend(key, [])
  {
  }
}
