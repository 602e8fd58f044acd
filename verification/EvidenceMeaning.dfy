/** What the objective of the evidence selection rewards and punishes, in plain terms: consequences for
    the documents of flood_system/rag.py that do not mention how the objective is put together. */
module EvidenceMeaning {
  import opened Ordering
  import opened EvidenceSelection

  function WeightedSum(p: Policy, t: ScoreTerms): real {
    p.fieldWeight * t.coverage + p.roleWeight * t.role + p.trustWeight * t.trust
    + p.applicabilityWeight * t.applicability + p.noveltyWeight * t.novelty + p.supportWeight * t.support
    - p.conflictPenaltyWeight * t.conflict - p.costPenaltyWeight * t.cost
  }

  /** The objective is the weighted sum of its eight terms, conflict and cost counting against. */
  lemma ScoreIsWeightedSum(q: Query, c: Candidate, sel: seq<Candidate>)
    ensures Score(q, c, sel) == WeightedSum(q.policy, Terms(q, c, sel))
  {
    hide Terms;
    PlainTerms(q, c, sel);
    var t := Terms(q, c, sel);
    WeighEight(q.policy.Weights(), t.Signed());
    Negated(q.policy.conflictPenaltyWeight, t.conflict);
    Negated(q.policy.costPenaltyWeight, t.cost);
  }

  lemma PlainTerms(q: Query, c: Candidate, sel: seq<Candidate>)
    ensures Terms(q, c, sel).trust == c.trust && Terms(q, c, sel).applicability == c.applicability
    ensures Terms(q, c, sel).conflict == Penalised(RawConflict(c, sel), q.policy.conflictThreshold)
  {
    hide RawConflict, SlotGain, RoleGain, Novelty, SupportScore, CostScore;
  }

  lemma Negated(w: real, x: real)
    ensures w * -x == -(w * x)
  {
  }

  // ---------------------------------------------------------------- the terms

  predicate Supports18(c: Candidate, slot: string) {
    slot in c.support && c.support[slot] >= 0.18
  }

  /** Coverage adds the support of the slots that no selected document supports, and divides by the number
      of slots. */
  lemma CoverageIs(q: Query, c: Candidate, sel: seq<Candidate>)
    ensures forall slot | slot in NewSlots(c, sel) :: slot in c.support
    ensures Terms(q, c, sel).coverage ==
      SumOver(c.support, NewSlots(c, sel)) / (if q.slots == [] then 1.0 else |q.slots| as real)
  {
    hide SumOver;
    forall slot ensures slot in NewSlots(c, sel) <==> slot in CoveredSlots(c) - SlotsOf(sel) {
      SlotsOfMember(sel, slot);
    }
    assert NewSlots(c, sel) == CoveredSlots(c) - SlotsOf(sel);
  }

  ghost function NewSlots(c: Candidate, sel: seq<Candidate>): set<string> {
    set slot | slot in c.support && Supports18(c, slot) && forall s | s in sel :: !Supports18(s, slot)
  }

  /** The role term counts the required roles of the document that no selected document has. */
  lemma RoleTermIs(q: Query, c: Candidate, sel: seq<Candidate>)
    ensures Terms(q, c, sel).role ==
      |NewRoles(q, c, sel)| as real / (if q.required == {} then 1.0 else |q.required| as real)
  {
    forall role ensures role in NewRoles(q, c, sel) <==> role in (c.roles * q.required) - RolesOf(sel) {
      RolesOfMember(sel, role);
    }
    assert NewRoles(q, c, sel) == (c.roles * q.required) - RolesOf(sel);
    assert |q.required| == 0 <==> q.required == {};
  }

  ghost function NewRoles(q: Query, c: Candidate, sel: seq<Candidate>): set<string> {
    set role | role in c.roles && role in q.required && forall s | s in sel :: role !in s.roles
  }

  /** `share` is the largest share of common words with a selected document, zero without any words. */
  ghost predicate LargestShare(c: Candidate, sel: seq<Candidate>, share: real) {
    && (forall s | s in sel :: Within(c, s, share))
    && (share == 0.0 || exists s | s in sel :: HasShare(c, s, share))
  }

  predicate Within(c: Candidate, s: Candidate, share: real) {
    |c.tokens * s.tokens| as real <= share * |c.tokens + s.tokens| as real
  }

  ghost predicate HasShare(c: Candidate, s: Candidate, share: real) {
    c.tokens + s.tokens != {} && |c.tokens * s.tokens| as real == share * |c.tokens + s.tokens| as real
  }

  /** Novelty is what the largest share of common words leaves of one, and one for the first pick. */
  lemma {:induction false} NoveltyIs(q: Query, c: Candidate, sel: seq<Candidate>) returns (share: real)
    ensures sel == [] ==> Terms(q, c, sel).novelty == 1.0
    ensures 0.0 <= share <= 1.0 && LargestShare(c, sel, share)
    ensures sel != [] ==> Terms(q, c, sel).novelty == Round4(1.0 - share)
  {
    hide Overlap;
    share := MaxOverlap(c, sel);
    MaxOverlapIsLargest(c, sel);
  }

  lemma {:induction false} MaxOverlapIsLargest(c: Candidate, sel: seq<Candidate>)
    ensures LargestShare(c, sel, MaxOverlap(c, sel))
  {
    hide HasShare, Within, Overlap;
    if sel != [] {
      var front, last := sel[..|sel| - 1], sel[|sel| - 1];
      MaxOverlapIsLargest(c, front);
      OverlapIs(c, last);
      assert sel == front + [last];
      forall s | s in sel ensures Within(c, s, MaxOverlap(c, sel)) {
        if s in front {
          WithinMore(c, s, MaxOverlap(c, front), MaxOverlap(c, sel));
        } else {
          WithinMore(c, s, Overlap(c.tokens, last.tokens), MaxOverlap(c, sel));
        }
      }
    }
  }

  lemma WithinMore(c: Candidate, s: Candidate, x: real, y: real)
    requires Within(c, s, x) && x <= y
    ensures Within(c, s, y)
  {
    var n := |c.tokens + s.tokens| as real;
    assert (y - x) * n >= 0.0;
  }

  lemma OverlapIs(c: Candidate, s: Candidate)
    ensures Within(c, s, Overlap(c.tokens, s.tokens))
    ensures Overlap(c.tokens, s.tokens) == 0.0 || HasShare(c, s, Overlap(c.tokens, s.tokens))
  {
    var n, k := |c.tokens + s.tokens|, |c.tokens * s.tokens|;
    SubsetCardinality(c.tokens * s.tokens, c.tokens + s.tokens);
    if n != 0 {
      assert k as real / n as real * n as real == k as real;
    }
  }

  /** The support term is the best support for any slot. */
  lemma SupportIs(q: Query, c: Candidate, sel: seq<Candidate>)
    ensures c.support == map[] ==> Terms(q, c, sel).support == 0.0
    ensures forall slot | slot in c.support :: c.support[slot] <= Terms(q, c, sel).support
    ensures c.support != map[] ==> exists slot | slot in c.support :: c.support[slot] == Terms(q, c, sel).support
  {
    if c.support != map[] {
      assert IsTop(c.support, TopOf(c.support));
    }
  }

  /** The cost term is the share of the budget, or of the document's own cost without a budget. */
  lemma CostIs(q: Query, c: Candidate, sel: seq<Candidate>)
    ensures q.budget.Some? && q.budget.value > 0 ==>
      Terms(q, c, sel).cost == c.tokenCost as real / q.budget.value as real
    ensures q.budget.None? && c.tokenCost >= 1 ==> Terms(q, c, sel).cost == 1.0
  {
    hide RawConflict, SlotGain, RoleGain, Novelty, SupportScore;
    if c.tokenCost >= 1 {
      Self(c.tokenCost as real);
    }
  }

  lemma Self(n: real)
    requires n > 0.0
    ensures n / n == 1.0
  {
  }

  /** A conflict counts as it is rounded, and a conflict below the threshold not at all. */
  lemma ConflictIs(q: Query, c: Candidate, sel: seq<Candidate>)
    ensures var raw := Round4(ConflictLevel(c, sel));
      Terms(q, c, sel).conflict == if raw <= 0.0 || raw < q.policy.conflictThreshold then 0.0 else raw
  {
    hide Terms, ConflictLevel, Round4;
    PlainTerms(q, c, sel);
    MaxConflictIs(c, sel);
    LevelBounds(c, sel);
  }

  lemma LevelBounds(c: Candidate, sel: seq<Candidate>)
    ensures 0.0 <= ConflictLevel(c, sel) <= 1.0
  {
  }

  // ---------------------------------------------------------------- the pick

  /** The pick has the highest objective; among equals it is the most trusted, then the cheapest, then the
      one whose identifier comes first. */
  lemma PickIsBest(q: Query, cands: seq<Candidate>, sel: seq<Candidate>, c: Candidate, other: Candidate)
    requires IsNext(q, cands, sel, c)
    requires other in cands && (forall s | s in sel :: s.docId != other.docId)
    requires q.budget.Some? ==> CostOf(sel) + other.tokenCost <= q.budget.value
    ensures Score(q, other, sel) <= Score(q, c, sel)
    ensures Score(q, other, sel) == Score(q, c, sel) ==> other.trust <= c.trust
    ensures Score(q, other, sel) == Score(q, c, sel) && other.trust == c.trust ==> other.tokenCost >= c.tokenCost
    ensures Score(q, other, sel) == Score(q, c, sel) && other.trust == c.trust && other.tokenCost == c.tokenCost ==>
      !LexLess(other.docId, c.docId)
  {
    hide Score, IsNext;
    NextNotBeaten(q, cands, sel, c, other);
  }

  /** Two documents alike in all but their identifier and the conflicts they declare. */
  predicate Alike(b: Candidate, c: Candidate) {
    b == c.(docId := b.docId, conflictsWith := b.conflictsWith)
  }

  /** Of two documents that are alike, the one in declared conflict with the selection is not picked, if the
      penalty has any weight and the other one's conflict is not as grave. */
  lemma DeclaredConflictIsAvoided(q: Query, cands: seq<Candidate>, sel: seq<Candidate>, s: Candidate, b: Candidate,
                                  c: Candidate, pick: Candidate)
    requires q.policy.Valid() && q.policy.conflictPenaltyWeight > 0.0 && Alike(b, c)
    requires s in sel && (s.docId in b.conflictsWith || b.docId in s.conflictsWith)
    requires forall x | x in sel :: x.docId !in c.conflictsWith && c.docId !in x.conflictsWith
    requires Round4(OwnRisk(c)) < 1.0
    requires c in cands && (forall x | x in sel :: x.docId != c.docId)
    requires q.budget.Some? ==> CostOf(sel) + c.tokenCost <= q.budget.value
    requires IsNext(q, cands, sel, pick)
    ensures pick != b
  {
    hide Score, IsNext;
    if pick == b {
      ConflictLowersScore(q, sel, s, b, c);
      PickIsBest(q, cands, sel, pick, c);
    }
  }

  lemma ConflictLowersScore(q: Query, sel: seq<Candidate>, s: Candidate, b: Candidate, c: Candidate)
    requires q.policy.Valid() && q.policy.conflictPenaltyWeight > 0.0 && Alike(b, c)
    requires s in sel && (s.docId in b.conflictsWith || b.docId in s.conflictsWith)
    requires forall x | x in sel :: x.docId !in c.conflictsWith && c.docId !in x.conflictsWith
    requires Round4(OwnRisk(c)) < 1.0
    ensures Score(q, b, sel) < Score(q, c, sel)
  {
    hide Terms, Score, RawConflict, WeightedSum;
    ConflictGap(sel, s, b, c);
    PlainTerms(q, b, sel);
    PlainTerms(q, c, sel);
    SameElse(q, sel, b, c);
    ScoreIsWeightedSum(q, b, sel);
    ScoreIsWeightedSum(q, c, sel);
    MoreConflictScoresLess(q.policy, Terms(q, c, sel), Terms(q, b, sel).conflict);
  }

  lemma MoreConflictScoresLess(p: Policy, t: ScoreTerms, conflict: real)
    requires p.conflictPenaltyWeight > 0.0 && t.conflict < conflict
    ensures WeightedSum(p, t.(conflict := conflict)) < WeightedSum(p, t)
  {
    assert p.conflictPenaltyWeight * (conflict - t.conflict) > 0.0;
  }

  lemma ConflictGap(sel: seq<Candidate>, s: Candidate, b: Candidate, c: Candidate)
    requires s in sel && (s.docId in b.conflictsWith || b.docId in s.conflictsWith)
    requires forall x | x in sel :: x.docId !in c.conflictsWith && c.docId !in x.conflictsWith
    requires Round4(OwnRisk(c)) < 1.0
    ensures RawConflict(b, sel) == 1.0 && RawConflict(c, sel) < 1.0
  {
    MaxConflictIs(b, sel);
    MaxConflictIs(c, sel);
    assert NamesAsConflict(b, s);
    RoundedBounds();
    RoundedBelowOne(OwnRisk(c));
  }

  lemma RoundedBelowOne(x: real)
    requires Round4(x) < 1.0
    ensures Round4(MaxReal(x, 0.8)) < 1.0 && Round4(MaxReal(x, 0.45)) < 1.0 && x < 1.0
  {
    RoundedBounds();
    if x >= 1.0 {
      Round4Monotone(1.0, x);
    }
    assert Round4(0.8) == 0.8 && Round4(0.45) == 0.45;
  }

  lemma SameElse(q: Query, sel: seq<Candidate>, b: Candidate, c: Candidate)
    requires Alike(b, c)
    ensures Terms(q, b, sel) == Terms(q, c, sel).(conflict := Terms(q, b, sel).conflict)
  {
    SameOverlap(sel, b, c);
    assert CoveredSlots(b) == CoveredSlots(c);
  }

  lemma {:induction false} SameOverlap(sel: seq<Candidate>, b: Candidate, c: Candidate)
    requires b.tokens == c.tokens
    ensures MaxOverlap(b, sel) == MaxOverlap(c, sel)
  {
    if sel != [] {
      SameOverlap(sel[..|sel| - 1], b, c);
    }
  }
}
