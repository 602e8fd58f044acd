/** Budget-aware selection of an evidence set (flood_system/rag.py).

    A selection is the sequence of candidates picked so far; every quantity the loop keeps
    incrementally (covered slots, covered roles, used budget, remaining candidates) is
    defined here from that sequence alone, and the loop is proved against those definitions. */
module EvidenceSelection {
  import opened Ordering

  const SLOT_THRESHOLD := 0.18

  datatype Policy = Policy(
    fieldWeight: real, roleWeight: real, trustWeight: real, applicabilityWeight: real,
    noveltyWeight: real, supportWeight: real, conflictPenaltyWeight: real,
    costPenaltyWeight: real, conflictThreshold: real)
  {
    /** What the policy's constructor accepts. */
    predicate Valid() {
      && fieldWeight >= 0.0 && roleWeight >= 0.0 && trustWeight >= 0.0
      && applicabilityWeight >= 0.0 && noveltyWeight >= 0.0 && supportWeight >= 0.0
      && conflictPenaltyWeight >= 0.0 && costPenaltyWeight >= 0.0
      && 0.0 <= conflictThreshold <= 1.0
    }

    function Weights(): seq<real> {
      [fieldWeight, roleWeight, trustWeight, applicabilityWeight,
       noveltyWeight, supportWeight, conflictPenaltyWeight, costPenaltyWeight]
    }
  }

  /** A candidate with the features that scoring reads. `tokenCost` is at least one;
      `lowTrustLabel` says the source label maps to one of the three lowest priors. */
  datatype Candidate = Candidate(
    docId: string, tokens: set<string>, tokenCost: nat, trust: real, applicability: real,
    support: map<string, real>, roles: set<string>, riskScore: real, lowTrustLabel: bool,
    stance: string, hasMarker: bool, conflictsWith: set<string>)

  /** The arguments of one selection call. */
  datatype Query = Query(
    slots: seq<string>, topK: int, budget: Option<int>, required: set<string>, policy: Policy)

  datatype Pick = Pick(candidate: Candidate, reportedScore: real)

  // ---------------------------------------------------------------- features of a selection

  function CoveredSlots(c: Candidate): set<string> {
    set s | s in c.support && c.support[s] >= SLOT_THRESHOLD
  }

  function SlotsOf(sel: seq<Candidate>): set<string> {
    if sel == [] then {} else SlotsOf(sel[..|sel| - 1]) + CoveredSlots(sel[|sel| - 1])
  }

  function RolesOf(sel: seq<Candidate>): set<string> {
    if sel == [] then {} else RolesOf(sel[..|sel| - 1]) + sel[|sel| - 1].roles
  }

  function CostOf(sel: seq<Candidate>): nat {
    if sel == [] then 0 else CostOf(sel[..|sel| - 1]) + sel[|sel| - 1].tokenCost
  }

  function Ids(sel: seq<Candidate>): set<string> {
    set c | c in sel :: c.docId
  }

  /** The candidates whose document id is not in `ids`, in their original order. */
  function Without(cands: seq<Candidate>, ids: set<string>): seq<Candidate> {
    if cands == [] then []
    else (if cands[0].docId in ids then [] else [cands[0]]) + Without(cands[1..], ids)
  }

  predicate Fits(q: Query, used: int, c: Candidate) {
    q.budget.Some? ==> used + c.tokenCost <= q.budget.value
  }

  function Overlap(a: set<string>, b: set<string>): (r: real)
    ensures 0.0 <= r <= 1.0
  {
    if |a + b| == 0 then 0.0
    else
      SubsetCardinality(a * b, a + b);
      |a * b| as real / |a + b| as real
  }

  function MaxOverlap(c: Candidate, sel: seq<Candidate>): (r: real)
    ensures 0.0 <= r <= 1.0
  {
    if sel == [] then 0.0
    else MaxReal(MaxOverlap(c, sel[..|sel| - 1]), Overlap(c.tokens, sel[|sel| - 1].tokens))
  }

  function Novelty(c: Candidate, sel: seq<Candidate>): real {
    if sel == [] then 1.0 else Round4(1.0 - MaxOverlap(c, sel))
  }

  /** How strongly two candidates contradict each other. */
  function PairConflict(c: Candidate, s: Candidate): real {
    var shared := CoveredSlots(c) * CoveredSlots(s) != {};
    if s.docId in c.conflictsWith || c.docId in s.conflictsWith then 1.0
    else if shared && c.stance != "" && s.stance != "" && c.stance != s.stance then 0.8
    else if shared && Overlap(c.tokens, s.tokens) >= 0.18 && c.hasMarker != s.hasMarker
            && (c.trust < 0.6 || s.trust < 0.6) then 0.45
    else 0.0
  }

  function MaxConflict(c: Candidate, sel: seq<Candidate>): real {
    if sel == [] then (if c.lowTrustLabel then MaxReal(Clamp(c.riskScore), 0.35) else Clamp(c.riskScore))
    else MaxReal(MaxConflict(c, sel[..|sel| - 1]), PairConflict(c, sel[|sel| - 1]))
  }

  function Clamp(x: real): real {
    if x < 0.0 then 0.0 else if x > 1.0 then 1.0 else x
  }

  function RawConflict(c: Candidate, sel: seq<Candidate>): real {
    Round4(Clamp(MaxConflict(c, sel)))
  }

  function Penalised(raw: real, threshold: real): real {
    if raw > 0.0 && raw >= threshold then raw else 0.0
  }

  function CostScore(q: Query, c: Candidate): real {
    var limit := if q.budget.Some? && q.budget.value != 0 then q.budget.value else c.tokenCost;
    c.tokenCost as real / MaxInt(1, limit) as real
  }

  ghost predicate IsTop(m: map<string, real>, key: string) {
    key in m && forall other | other in m :: m[other] <= m[key]
  }

  lemma {:induction false} TopExists(m: map<string, real>) returns (key: string)
    requires m != map[]
    ensures IsTop(m, key)
    decreases |m|
  {
    key :| key in m;
    var rest := m - {key};
    if rest != map[] {
      assert |rest| < |m| by { assert rest.Keys == m.Keys - {key}; }
      var top := TopExists(rest);
      if m[key] < m[top] {
        key := top;
      }
      forall other | other in m ensures m[other] <= m[key] {
        assert other in rest || rest.Keys == m.Keys - {other};
      }
    } else {
      forall other | other in m ensures other == key {
        assert other != key ==> other in rest;
      }
    }
  }

  /** The best support the candidate gives to any slot, or zero without slots. */
  ghost function SupportScore(c: Candidate): real {
    if c.support == map[] then 0.0 else
      c.support[TopOf(c.support)]
  }

  ghost function TopOf(m: map<string, real>): (key: string)
    requires m != map[]
    ensures IsTop(m, key)
  {
    assert exists k :: IsTop(m, k) by { var k := TopExists(m); }
    var k :| IsTop(m, k);
    k
  }

  // ---------------------------------------------------------------- the objective

  ghost function SlotGain(c: Candidate, covered: set<string>): real {
    SumOver(c.support, CoveredSlots(c) - covered)
  }

  function RoleGain(q: Query, c: Candidate, covered: set<string>): nat {
    |(c.roles * q.required) - covered|
  }

  /** The weighted parts of the objective. */
  datatype ScoreTerms = ScoreTerms(
    coverage: real, role: real, trust: real, applicability: real,
    novelty: real, support: real, conflict: real, cost: real)
  {
    function Signed(): seq<real> {
      [coverage, role, trust, applicability, novelty, support, -conflict, -cost]
    }
  }

  function Weigh(weights: seq<real>, terms: seq<real>): real
    requires |weights| == |terms|
  {
    if weights == [] then 0.0 else weights[0] * terms[0] + Weigh(weights[1..], terms[1..])
  }

  ghost function Terms(q: Query, c: Candidate, sel: seq<Candidate>): ScoreTerms {
    ScoreTerms(
      SlotGain(c, SlotsOf(sel)) / MaxInt(1, |q.slots|) as real,
      RoleGain(q, c, RolesOf(sel)) as real / MaxInt(1, |q.required|) as real,
      c.trust, c.applicability, Novelty(c, sel), SupportScore(c),
      Penalised(RawConflict(c, sel), q.policy.conflictThreshold), CostScore(q, c))
  }

  /** The objective of picking `c` after `sel`. */
  ghost function Score(q: Query, c: Candidate, sel: seq<Candidate>): real {
    Weigh(q.policy.Weights(), Terms(q, c, sel).Signed())
  }

  /** The score of each candidate of the pool, or none when it does not fit the budget. */
  ghost function Scored(q: Query, pool: seq<Candidate>, sel: seq<Candidate>): seq<Option<real>> {
    seq(|pool|, i requires 0 <= i < |pool| =>
      if Fits(q, CostOf(sel), pool[i]) then Some(Score(q, pool[i], sel)) else None)
  }

  /** The sort key: higher score, then more trusted, then cheaper, then smaller id. */
  predicate SortsBefore(sa: real, a: Candidate, sb: real, b: Candidate) {
    sa > sb || (sa == sb && (a.trust > b.trust || (a.trust == b.trust &&
      (a.tokenCost < b.tokenCost || (a.tokenCost == b.tokenCost && LexLess(a.docId, b.docId))))))
  }

  /** A stable sort of the scored candidates puts position `i` of the pool first. */
  ghost predicate IsFirstBest(pool: seq<Candidate>, scored: seq<Option<real>>, i: int)
    requires |scored| == |pool|
  {
    && 0 <= i < |pool| && scored[i].Some?
    && (forall j | 0 <= j < |pool| && scored[j].Some? ::
          !SortsBefore(scored[j].value, pool[j], scored[i].value, pool[i]))
    && (forall j | 0 <= j < i && scored[j].Some? ::
          SortsBefore(scored[i].value, pool[i], scored[j].value, pool[j]))
  }

  /** Every field and every required role is covered; without required roles the loop never
      stops early. */
  predicate Sufficient(q: Query, sel: seq<Candidate>) {
    StopRule(q, SlotsOf(sel), RolesOf(sel))
  }

  predicate StopRule(q: Query, slots: set<string>, roles: set<string>) {
    q.required != {} && |slots| == |q.slots| && q.required <= roles
  }

  ghost predicate Affordable(q: Query, pool: seq<Candidate>, sel: seq<Candidate>) {
    exists c :: c in pool && Fits(q, CostOf(sel), c)
  }

  /** `c` is the pick that follows `sel`. */
  ghost predicate IsNext(q: Query, cands: seq<Candidate>, sel: seq<Candidate>, c: Candidate) {
    var pool := Without(cands, Ids(sel));
    exists i :: IsFirstBest(pool, Scored(q, pool, sel), i) && pool[i] == c
  }

  /** `sel` is reached by picking greedily, never going on after a sufficient prefix. */
  ghost predicate GreedyPrefix(q: Query, cands: seq<Candidate>, sel: seq<Candidate>) {
    sel == [] ||
    var before := sel[..|sel| - 1];
    && GreedyPrefix(q, cands, before)
    && |before| < q.topK
    && !Sufficient(q, before)
    && IsNext(q, cands, before, sel[|sel| - 1])
  }

  /** `sel` is the finished selection. */
  ghost predicate GreedyRun(q: Query, cands: seq<Candidate>, sel: seq<Candidate>) {
    && GreedyPrefix(q, cands, sel)
    && (|sel| >= q.topK || Sufficient(q, sel) || !Affordable(q, Without(cands, Ids(sel)), sel))
  }

  function Candidates(picks: seq<Pick>): seq<Candidate> {
    seq(|picks|, i requires 0 <= i < |picks| => picks[i].candidate)
  }

  // ---------------------------------------------------------------- lemmas about one step

  lemma {:induction false} WithoutNothing(cands: seq<Candidate>)
    ensures Without(cands, {}) == cands
  {
    if cands != [] {
      WithoutNothing(cands[1..]);
    }
  }

  lemma {:induction false} WithoutTwice(cands: seq<Candidate>, a: set<string>, b: set<string>)
    ensures Without(Without(cands, a), b) == Without(cands, a + b)
  {
    if cands != [] {
      WithoutTwice(cands[1..], a, b);
      var tail := Without(cands[1..], a);
      if cands[0].docId !in a {
        assert Without(cands, a) == [cands[0]] + tail;
        assert Without(cands, a)[1..] == tail;
      } else {
        assert Without(cands, a) == tail;
      }
    }
  }

  lemma {:induction false} WithoutMember(cands: seq<Candidate>, ids: set<string>, c: Candidate)
    ensures c in Without(cands, ids) <==> c in cands && c.docId !in ids
    ensures |Without(cands, ids)| <= |cands|
    ensures |Without(cands, ids)| == |cands| ==> forall x | x in cands :: x.docId !in ids
  {
    if cands != [] {
      WithoutMember(cands[1..], ids, c);
    }
  }

  /** The sort key is a strict weak order. */
  lemma SortTransitive(sa: real, a: Candidate, sb: real, b: Candidate, sc: real, c: Candidate)
    requires SortsBefore(sa, a, sb, b) && !SortsBefore(sc, c, sb, b)
    ensures SortsBefore(sa, a, sc, c) && !SortsBefore(sc, c, sa, a)
  {
    LexTrichotomy(b.docId, c.docId);
    LexTrichotomy(a.docId, c.docId);
    LexTrichotomy(a.docId, b.docId);
    if LexLess(a.docId, b.docId) && LexLess(b.docId, c.docId) {
      LexTransitive(a.docId, b.docId, c.docId);
    }
  }

  lemma SortIrreflexive(s: real, c: Candidate)
    ensures !SortsBefore(s, c, s, c)
  {
    LexTrichotomy(c.docId, c.docId);
  }

  lemma NothingScored(q: Query, pool: seq<Candidate>, sel: seq<Candidate>)
    requires forall j | 0 <= j < |pool| :: Scored(q, pool, sel)[j].None?
    ensures !Affordable(q, pool, sel)
  {
    forall c | c in pool ensures !Fits(q, CostOf(sel), c) {
      var j :| 0 <= j < |pool| && pool[j] == c;
      assert Scored(q, pool, sel)[j].None?;
    }
  }

  lemma ExtendSums(sel: seq<Candidate>, c: Candidate)
    ensures (sel + [c])[..|sel|] == sel
    ensures SlotsOf(sel + [c]) == SlotsOf(sel) + CoveredSlots(c)
    ensures RolesOf(sel + [c]) == RolesOf(sel) + c.roles
    ensures CostOf(sel + [c]) == CostOf(sel) + c.tokenCost
    ensures Ids(sel + [c]) == Ids(sel) + {c.docId}
  {
    assert (sel + [c])[..|sel|] == sel;
  }

  /** The loop's running variables agree with the selection they were accumulated from. */
  ghost predicate Tracks(cands: seq<Candidate>, sel: seq<Candidate>, remaining: seq<Candidate>,
                         coveredSlots: set<string>, coveredRoles: set<string>, used: nat) {
    && remaining == Without(cands, Ids(sel))
    && coveredSlots == SlotsOf(sel) && coveredRoles == RolesOf(sel) && used == CostOf(sel)
  }

  lemma StartSelection(q: Query, cands: seq<Candidate>)
    ensures Tracks(cands, [], cands, {}, {}, 0)
    ensures GreedyPrefix(q, cands, []) && !Sufficient(q, [])
  {
    WithoutNothing(cands);
    assert Ids([]) == {};
  }

  lemma NextIsFresh(q: Query, cands: seq<Candidate>, sel: seq<Candidate>, c: Candidate)
    requires IsNext(q, cands, sel, c)
    ensures c in cands && c.docId !in Ids(sel) && Fits(q, CostOf(sel), c)
    ensures c in Without(cands, Ids(sel))
  {
    hide Score;
    WithoutMember(cands, Ids(sel), c);
  }

  lemma StepSelection(q: Query, cands: seq<Candidate>, sel: seq<Candidate>, c: Candidate)
    requires GreedyPrefix(q, cands, sel) && !Sufficient(q, sel) && |sel| < q.topK
    requires IsNext(q, cands, sel, c)
    ensures GreedyPrefix(q, cands, sel + [c])
    ensures Tracks(cands, sel + [c], Without(Without(cands, Ids(sel)), {c.docId}),
                   SlotsOf(sel) + CoveredSlots(c), RolesOf(sel) + c.roles, CostOf(sel) + c.tokenCost)
    ensures |Without(Without(cands, Ids(sel)), {c.docId})| < |Without(cands, Ids(sel))|
  {
    hide Score, Sufficient, IsFirstBest, Without;
    NextIsFresh(q, cands, sel, c);
    ExtendSums(sel, c);
    var pool := Without(cands, Ids(sel));
    WithoutTwice(cands, Ids(sel), {c.docId});
    WithoutMember(pool, {c.docId}, c);
  }

  lemma ScoredValue(q: Query, pool: seq<Candidate>, sel: seq<Candidate>, i: nat)
    requires i < |pool| && Scored(q, pool, sel)[i].Some?
    ensures Scored(q, pool, sel)[i].value == Score(q, pool[i], sel)
  {
    hide Score;
  }

  lemma EmptyPool(q: Query, sel: seq<Candidate>)
    ensures !Affordable(q, [], sel)
  {
  }

  // ---------------------------------------------------------------- the code's loops

  method ComputeSlotGain(c: Candidate, covered: set<string>) returns (gain: real)
    ensures gain == SlotGain(c, covered)
  {
    gain := 0.0;
    var rest := CoveredSlots(c) - covered;
    while rest != {}
      invariant rest <= c.support.Keys
      invariant gain + SumOver(c.support, rest) == SlotGain(c, covered)
    {
      var slot :| slot in rest;
      SumOverRemove(c.support, rest, slot);
      gain, rest := gain + c.support[slot], rest - {slot};
    }
  }

  method ComputeSupport(c: Candidate) returns (best: real)
    ensures best == SupportScore(c)
  {
    if c.support == map[] {
      return 0.0;
    }
    var rest := c.support.Keys;
    var key :| key in rest;
    best := c.support[key];
    while rest != {}
      invariant rest <= c.support.Keys
      invariant key in c.support && best == c.support[key]
      invariant forall k | k in c.support.Keys - rest :: c.support[k] <= best
    {
      var next :| next in rest;
      if c.support[next] > best {
        key, best := next, c.support[next];
      }
      rest := rest - {next};
    }
    assert IsTop(c.support, TopOf(c.support));
  }

  method ComputeNovelty(c: Candidate, sel: seq<Candidate>) returns (novelty: real)
    ensures novelty == Novelty(c, sel)
  {
    if sel == [] {
      return 1.0;
    }
    var maxOverlap := 0.0;
    for i := 0 to |sel|
      invariant maxOverlap == MaxOverlap(c, sel[..i])
    {
      assert sel[..i + 1][..i] == sel[..i];
      maxOverlap := MaxReal(maxOverlap, Overlap(c.tokens, sel[i].tokens));
    }
    assert sel[..|sel|] == sel;
    novelty := Round4(1.0 - maxOverlap);
  }

  // What the conflict score stands for: the relations a candidate may have to a selected document.

  predicate NamesAsConflict(c: Candidate, s: Candidate) {
    s.docId in c.conflictsWith || c.docId in s.conflictsWith
  }

  /** Both documents support the slot well enough. */
  predicate BothSupport(c: Candidate, s: Candidate, slot: string) {
    slot in c.support && slot in s.support && c.support[slot] >= 0.18 && s.support[slot] >= 0.18
  }

  ghost predicate OpposedStances(c: Candidate, s: Candidate) {
    c.stance != "" && s.stance != "" && c.stance != s.stance && exists slot :: BothSupport(c, s, slot)
  }

  /** Much the same words about one slot, a negation in one of them only, and one source of little trust. */
  ghost predicate NegatedWords(c: Candidate, s: Candidate) {
    && c.hasMarker != s.hasMarker && (c.trust < 0.6 || s.trust < 0.6)
    && c.tokens + s.tokens != {} && |c.tokens * s.tokens| as real >= 0.18 * |c.tokens + s.tokens| as real
    && exists slot :: BothSupport(c, s, slot)
  }

  function OwnRisk(c: Candidate): real {
    var risk := if c.riskScore < 0.0 then 0.0 else if c.riskScore > 1.0 then 1.0 else c.riskScore;
    if c.lowTrustLabel && risk < 0.35 then 0.35 else risk
  }

  /** A conflict that a document declares counts in full; else opposed stances raise the document's own
      risk to 0.8, and else negated words to 0.45. */
  ghost function ConflictLevel(c: Candidate, sel: seq<Candidate>): real {
    if exists s | s in sel :: NamesAsConflict(c, s) then 1.0
    else if exists s | s in sel :: OpposedStances(c, s) then MaxReal(OwnRisk(c), 0.8)
    else if exists s | s in sel :: NegatedWords(c, s) then MaxReal(OwnRisk(c), 0.45)
    else OwnRisk(c)
  }

  lemma SharedSlots(c: Candidate, s: Candidate)
    ensures CoveredSlots(c) * CoveredSlots(s) != {} <==> exists slot :: BothSupport(c, s, slot)
  {
    if slot :| BothSupport(c, s, slot) {
      assert slot in CoveredSlots(c) * CoveredSlots(s);
    }
    if CoveredSlots(c) * CoveredSlots(s) != {} {
      var slot :| slot in CoveredSlots(c) * CoveredSlots(s);
      assert BothSupport(c, s, slot);
    }
  }

  lemma OverlapAtLeast(a: set<string>, b: set<string>)
    ensures Overlap(a, b) >= 0.18 <==> a + b != {} && |a * b| as real >= 0.18 * |a + b| as real
  {
    if a + b != {} {
      var n, k := |a + b| as real, |a * b| as real;
      assert n > 0.0 && Overlap(a, b) == k / n && k / n * n == k;
    } else {
      assert |a + b| == 0;
    }
  }

  lemma PairConflictIs(c: Candidate, s: Candidate)
    ensures PairConflict(c, s) ==
      if NamesAsConflict(c, s) then 1.0
      else if OpposedStances(c, s) then 0.8
      else if NegatedWords(c, s) then 0.45
      else 0.0
  {
    SharedSlots(c, s);
    OverlapAtLeast(c.tokens, s.tokens);
  }

  lemma {:induction false} MaxConflictIs(c: Candidate, sel: seq<Candidate>)
    ensures MaxConflict(c, sel) == ConflictLevel(c, sel)
  {
    hide NamesAsConflict, OpposedStances, NegatedWords, PairConflict;
    if sel != [] {
      var front, last := sel[..|sel| - 1], sel[|sel| - 1];
      MaxConflictIs(c, front);
      PairConflictIs(c, last);
      assert sel == front + [last];
    }
  }

  method ComputeConflict(c: Candidate, sel: seq<Candidate>) returns (conflict: real)
    ensures conflict == RawConflict(c, sel)
    ensures conflict == Round4(ConflictLevel(c, sel))
  {
    var score := Clamp(c.riskScore);
    if c.lowTrustLabel {
      score := MaxReal(score, 0.35);
    }
    for i := 0 to |sel|
      invariant score == MaxConflict(c, sel[..i]) >= 0.0
    {
      var s := sel[i];
      assert sel[..i + 1][..i] == sel[..i];
      if s.docId in c.conflictsWith || c.docId in s.conflictsWith {
        score := MaxReal(score, 1.0);
        continue;
      }
      var shared := CoveredSlots(c) * CoveredSlots(s);
      if shared != {} && c.stance != "" && s.stance != "" && c.stance != s.stance {
        score := MaxReal(score, 0.8);
      }
      if shared != {} && Overlap(c.tokens, s.tokens) >= 0.18 && c.hasMarker != s.hasMarker
         && (c.trust < 0.6 || s.trust < 0.6) {
        score := MaxReal(score, 0.45);
      }
    }
    assert sel[..|sel|] == sel;
    conflict := Round4(Clamp(score));
    MaxConflictIs(c, sel);
  }

  /** Scores one candidate from the loop's own running sets. */
  method ComputeScore(q: Query, c: Candidate, sel: seq<Candidate>,
                      coveredSlots: set<string>, coveredRoles: set<string>) returns (total: real)
    requires coveredSlots == SlotsOf(sel) && coveredRoles == RolesOf(sel)
    ensures total == Score(q, c, sel)
  {
    var gain := ComputeSlotGain(c, coveredSlots);
    var novelty := ComputeNovelty(c, sel);
    var raw := ComputeConflict(c, sel);
    var support := ComputeSupport(c);
    var terms := ScoreTerms(
      gain / MaxInt(1, |q.slots|) as real,
      RoleGain(q, c, coveredRoles) as real / MaxInt(1, |q.required|) as real,
      c.trust, c.applicability, novelty, support,
      Penalised(raw, q.policy.conflictThreshold), CostScore(q, c));
    total := Weigh(q.policy.Weights(), terms.Signed());
  }

  method ComputeScored(q: Query, pool: seq<Candidate>, sel: seq<Candidate>,
                       coveredSlots: set<string>, coveredRoles: set<string>, used: nat)
    returns (scored: seq<Option<real>>)
    requires coveredSlots == SlotsOf(sel) && coveredRoles == RolesOf(sel) && used == CostOf(sel)
    ensures |scored| == |pool| && scored == Scored(q, pool, sel)
  {
    hide Score;
    scored := [];
    for i := 0 to |pool|
      invariant scored == Scored(q, pool, sel)[..i]
    {
      if Fits(q, used, pool[i]) {
        var total := ComputeScore(q, pool[i], sel, coveredSlots, coveredRoles);
        scored := scored + [Some(total)];
      } else {
        scored := scored + [None];
      }
    }
  }

  /** The head of the sorted list of scored candidates. */
  method FirstBest(pool: seq<Candidate>, scored: seq<Option<real>>) returns (best: Option<nat>)
    requires |scored| == |pool|
    ensures best.None? ==> forall j | 0 <= j < |pool| :: scored[j].None?
    ensures best.Some? ==> IsFirstBest(pool, scored, best.value)
  {
    best := None;
    for i := 0 to |pool|
      invariant best.None? ==> forall j | 0 <= j < i :: scored[j].None?
      invariant best.Some? ==> best.value < i && IsFirstBest(pool[..i], scored[..i], best.value)
    {
      if scored[i].Some? {
        if best.None? || SortsBefore(scored[i].value, pool[i], scored[best.value].value, pool[best.value]) {
          forall j | 0 <= j < i && scored[j].Some?
            ensures SortsBefore(scored[i].value, pool[i], scored[j].value, pool[j])
            ensures !SortsBefore(scored[j].value, pool[j], scored[i].value, pool[i])
          {
            assert pool[..i][j] == pool[j] && scored[..i][j] == scored[j];
            SortTransitive(scored[i].value, pool[i], scored[best.value].value, pool[best.value],
                           scored[j].value, pool[j]);
          }
          SortIrreflexive(scored[i].value, pool[i]);
          best := Some(i);
        }
      }
    }
    assert pool[..|pool|] == pool && scored[..|pool|] == scored;
  }

  method Select(q: Query, cands: seq<Candidate>) returns (picks: seq<Pick>)
    ensures GreedyRun(q, cands, Candidates(picks))
    ensures forall k | 0 <= k < |picks| :: picks[k].reportedScore
              == Round4(Score(q, picks[k].candidate, Candidates(picks)[..k]))
  {
    hide Score, Scored, IsFirstBest, Without, SlotsOf, RolesOf, CostOf, GreedyPrefix, Round4, Affordable;
    picks := [];
    var sel: seq<Candidate> := [];
    var remaining := cands;
    var coveredSlots, coveredRoles: set<string>, used: nat := {}, {}, 0;
    StartSelection(q, cands);
    while remaining != [] && |sel| < q.topK
      invariant sel == Candidates(picks)
      invariant Tracks(cands, sel, remaining, coveredSlots, coveredRoles, used)
      invariant GreedyPrefix(q, cands, sel) && !Sufficient(q, sel)
      invariant forall k | 0 <= k < |picks| :: picks[k].reportedScore
                  == Round4(Score(q, picks[k].candidate, sel[..k]))
      decreases |remaining|
    {
      var scored := ComputeScored(q, remaining, sel, coveredSlots, coveredRoles, used);
      var best := FirstBest(remaining, scored);
      if best.None? {
        NothingScored(q, remaining, sel);
        break;
      }
      var c := remaining[best.value];
      ScoredValue(q, remaining, sel, best.value);
      StepSelection(q, cands, sel, c);
      ghost var earlier := sel;
      picks := picks + [Pick(c, Round4(scored[best.value].value))];
      sel := sel + [c];
      assert forall k | 0 <= k <= |earlier| :: sel[..k] == earlier[..k];
      coveredSlots := coveredSlots + CoveredSlots(c);
      coveredRoles := coveredRoles + c.roles;
      used := used + c.tokenCost;
      remaining := Without(remaining, {c.docId});
      assert sel == Candidates(picks);
      if StopRule(q, coveredSlots, coveredRoles) {
        break;
      }
    }
    EmptyPool(q, sel);
    assert GreedyRun(q, cands, sel);
    assert sel == Candidates(picks);
  }

  // ---------------------------------------------------------------- diminishing returns

  lemma {:induction false} WeighMonotone(weights: seq<real>, lower: seq<real>, upper: seq<real>)
    requires |weights| == |lower| == |upper|
    requires forall i | 0 <= i < |weights| :: weights[i] >= 0.0 && lower[i] <= upper[i]
    ensures Weigh(weights, lower) <= Weigh(weights, upper)
  {
    if weights != [] {
      WeighMonotone(weights[1..], lower[1..], upper[1..]);
      assert weights[0] * (upper[0] - lower[0]) >= 0.0;
    }
  }

  lemma PrefixFeatures(c: Candidate, sel: seq<Candidate>, s: Candidate)
    ensures SlotsOf(sel) <= SlotsOf(sel + [s])
    ensures RolesOf(sel) <= RolesOf(sel + [s])
    ensures CostOf(sel) <= CostOf(sel + [s])
    ensures MaxOverlap(c, sel) <= MaxOverlap(c, sel + [s])
    ensures MaxConflict(c, sel) <= MaxConflict(c, sel + [s])
  {
    assert (sel + [s])[..|sel|] == sel;
  }

  lemma RoundedBounds()
    ensures Round4(1.0) == 1.0 && Round4(0.0) == 0.0
  {
  }

  lemma NoveltyFalls(c: Candidate, sel: seq<Candidate>, s: Candidate)
    ensures Novelty(c, sel + [s]) <= Novelty(c, sel)
  {
    hide MaxOverlap, MaxConflict, SlotsOf, RolesOf, CostOf, Round4;
    PrefixFeatures(c, sel, s);
    var before, after := MaxOverlap(c, sel), MaxOverlap(c, sel + [s]);
    Round4Monotone(1.0 - after, 1.0 - before);
    if sel == [] {
      Round4Monotone(1.0 - after, 1.0);
      RoundedBounds();
    }
  }

  lemma ConflictRises(c: Candidate, sel: seq<Candidate>, s: Candidate, threshold: real)
    ensures Penalised(RawConflict(c, sel), threshold) <= Penalised(RawConflict(c, sel + [s]), threshold)
  {
    PrefixFeatures(c, sel, s);
    Round4Monotone(Clamp(MaxConflict(c, sel)), Clamp(MaxConflict(c, sel + [s])));
    Round4Monotone(0.0, Clamp(MaxConflict(c, sel)));
    assert Round4(0.0) == 0.0;
  }

  lemma CoverageFalls(q: Query, c: Candidate, sel: seq<Candidate>, s: Candidate)
    ensures Terms(q, c, sel + [s]).coverage <= Terms(q, c, sel).coverage
    ensures Terms(q, c, sel + [s]).role <= Terms(q, c, sel).role
  {
    hide Novelty, RawConflict, CostScore, SupportScore, MaxOverlap, MaxConflict;
    PrefixFeatures(c, sel, s);
    SumOverMonotone(c.support, CoveredSlots(c) - SlotsOf(sel + [s]), CoveredSlots(c) - SlotsOf(sel));
    DivideMonotone(SlotGain(c, SlotsOf(sel + [s])), SlotGain(c, SlotsOf(sel)), MaxInt(1, |q.slots|) as real);
    SubsetCardinality((c.roles * q.required) - RolesOf(sel + [s]), (c.roles * q.required) - RolesOf(sel));
    DivideMonotone(RoleGain(q, c, RolesOf(sel + [s])) as real, RoleGain(q, c, RolesOf(sel)) as real,
                   MaxInt(1, |q.required|) as real);
  }

  /** One more pick never raises what any candidate is worth. */
  lemma ScoreFallsStep(q: Query, c: Candidate, sel: seq<Candidate>, s: Candidate)
    requires q.policy.Valid()
    ensures Score(q, c, sel + [s]) <= Score(q, c, sel)
  {
    hide SlotGain, RoleGain, Novelty, RawConflict, CostScore, SupportScore, SlotsOf, RolesOf, Penalised;
    CoverageFalls(q, c, sel, s);
    NoveltyFalls(c, sel, s);
    ConflictRises(c, sel, s, q.policy.conflictThreshold);
    WeighMonotone(q.policy.Weights(), Terms(q, c, sel + [s]).Signed(), Terms(q, c, sel).Signed());
  }

  lemma DivideMonotone(a: real, b: real, d: real)
    requires a <= b && d >= 1.0
    ensures a / d <= b / d
  {
  }

  /** For every candidate, every valid policy and every selection, growing the selection by any
      further picks never raises the candidate's score. */
  lemma {:induction false} DiminishingReturns(q: Query, c: Candidate, sel: seq<Candidate>, more: seq<Candidate>)
    requires q.policy.Valid()
    ensures Score(q, c, sel + more) <= Score(q, c, sel)
    ensures CostOf(sel) <= CostOf(sel + more)
    decreases |more|
  {
    hide *;
    if more == [] {
      assert sel + more == sel;
    } else {
      var init := more[..|more| - 1];
      DiminishingReturns(q, c, sel, init);
      assert sel + more == (sel + init) + [more[|more| - 1]];
      ScoreFallsStep(q, c, sel + init, more[|more| - 1]);
      PrefixFeatures(c, sel + init, more[|more| - 1]);
    }
  }

  // ---------------------------------------------------------------- whole runs

  lemma {:induction false} GreedyPrefixAt(q: Query, cands: seq<Candidate>, sel: seq<Candidate>, k: nat)
    requires GreedyPrefix(q, cands, sel) && k < |sel|
    ensures GreedyPrefix(q, cands, sel[..k]) && k < q.topK && !Sufficient(q, sel[..k])
    ensures IsNext(q, cands, sel[..k], sel[k])
  {
    hide IsNext, Sufficient;
    var before := sel[..|sel| - 1];
    if k < |before| {
      GreedyPrefixAt(q, cands, before, k);
      assert before[..k] == sel[..k];
    }
  }

  lemma NextIsUnique(q: Query, cands: seq<Candidate>, sel: seq<Candidate>, c: Candidate, d: Candidate)
    requires IsNext(q, cands, sel, c) && IsNext(q, cands, sel, d)
    ensures c == d
  {
    hide Score, Without;
    var pool := Without(cands, Ids(sel));
    var i :| IsFirstBest(pool, Scored(q, pool, sel), i) && pool[i] == c;
    var j :| IsFirstBest(pool, Scored(q, pool, sel), j) && pool[j] == d;
    hide SortsBefore;
    assert i == j;
  }

  /** Both runs of the same call pick the same candidates: ties never leave a choice. */
  lemma {:induction false} RunIsUnique(q: Query, cands: seq<Candidate>, a: seq<Candidate>, b: seq<Candidate>)
    requires GreedyPrefix(q, cands, a) && GreedyPrefix(q, cands, b) && |a| == |b|
    ensures a == b
  {
    hide Sufficient, IsNext;
    if a != [] {
      RunIsUnique(q, cands, a[..|a| - 1], b[..|b| - 1]);
      NextIsUnique(q, cands, a[..|a| - 1], a[|a| - 1], b[|b| - 1]);
      assert a == a[..|a| - 1] + [a[|a| - 1]] && b == b[..|b| - 1] + [b[|b| - 1]];
    }
  }

  /** The order in which retrieval lists the candidates does not matter when ids are distinct. */
  lemma {:induction false} CandidateOrderIrrelevant(q: Query, cands: seq<Candidate>, other: seq<Candidate>,
                                                    a: seq<Candidate>, b: seq<Candidate>)
    requires forall c :: c in cands <==> c in other
    requires forall c, d | c in cands && d in cands && c.docId == d.docId :: c == d
    requires GreedyPrefix(q, cands, a) && GreedyPrefix(q, other, b) && |a| == |b|
    ensures a == b
  {
    hide Sufficient, IsNext;
    if a != [] {
      var before := a[..|a| - 1];
      CandidateOrderIrrelevant(q, cands, other, before, b[..|b| - 1]);
      NextAcrossOrders(q, cands, other, before, a[|a| - 1], b[|b| - 1]);
      assert a == before + [a[|a| - 1]] && b == before + [b[|b| - 1]];
    }
  }

  lemma NextAcrossOrders(q: Query, cands: seq<Candidate>, other: seq<Candidate>, sel: seq<Candidate>,
                         c: Candidate, d: Candidate)
    requires forall x :: x in cands <==> x in other
    requires forall x, y | x in cands && y in cands && x.docId == y.docId :: x == y
    requires IsNext(q, cands, sel, c) && IsNext(q, other, sel, d)
    ensures c == d
  {
    NextNotBeaten(q, cands, sel, c, d);
    NextNotBeaten(q, other, sel, d, c);
    LexTrichotomy(c.docId, d.docId);
  }

  /** Two finished runs over the same documents, in whatever order they were retrieved, are the same. */
  lemma FinishedRunsAgree(q: Query, cands: seq<Candidate>, other: seq<Candidate>, a: seq<Candidate>, b: seq<Candidate>)
    requires forall c :: c in cands <==> c in other
    requires forall c, d | c in cands && d in cands && c.docId == d.docId :: c == d
    requires GreedyRun(q, cands, a) && GreedyRun(q, other, b)
    ensures a == b
  {
    hide GreedyPrefix;
    if |a| < |b| {
      RunIsNoPrefix(q, cands, other, a, b);
    } else if |b| < |a| {
      RunIsNoPrefix(q, other, cands, b, a);
    } else {
      CandidateOrderIrrelevant(q, cands, other, a, b);
    }
  }

  /** A finished run cannot be continued, by whatever order of the candidates. */
  lemma RunIsNoPrefix(q: Query, cands: seq<Candidate>, other: seq<Candidate>, a: seq<Candidate>, b: seq<Candidate>)
    requires forall c :: c in cands <==> c in other
    requires forall c, d | c in cands && d in cands && c.docId == d.docId :: c == d
    requires GreedyRun(q, cands, a) && GreedyPrefix(q, other, b)
    ensures |a| >= |b|
  {
    hide GreedyPrefix, IsNext, Sufficient;
    if |a| < |b| {
      GreedyPrefixAt(q, other, b, |a|);
      CandidateOrderIrrelevant(q, cands, other, a, b[..|a|]);
      NextIsFresh(q, other, a, b[|a|]);
      WithoutMember(cands, Ids(a), b[|a|]);
    }
  }

  /** The pick comes first in the sort order among everything that could have been picked. */
  lemma NextNotBeaten(q: Query, cands: seq<Candidate>, sel: seq<Candidate>, c: Candidate, other: Candidate)
    requires IsNext(q, cands, sel, c)
    ensures c in cands && c.docId !in Ids(sel) && Fits(q, CostOf(sel), c)
    ensures other in cands && other.docId !in Ids(sel) && Fits(q, CostOf(sel), other) ==>
              !SortsBefore(Score(q, other, sel), other, Score(q, c, sel), c)
  {
    hide Score, Without, SortsBefore;
    NextIsFresh(q, cands, sel, c);
    var pool := Without(cands, Ids(sel));
    WithoutMember(cands, Ids(sel), other);
    if other in pool && Fits(q, CostOf(sel), other) {
      var j :| 0 <= j < |pool| && pool[j] == other;
      assert Scored(q, pool, sel)[j].Some?;
    }
  }

  lemma NextScoreNotHigher(q: Query, cands: seq<Candidate>, before: seq<Candidate>, c: Candidate, d: Candidate)
    requires q.policy.Valid()
    requires IsNext(q, cands, before, c) && IsNext(q, cands, before + [c], d)
    ensures Score(q, d, before + [c]) <= Score(q, c, before)
  {
    NextIsFresh(q, cands, before + [c], d);
    ExtendSums(before, c);
    hide Score, IsNext, SlotsOf, RolesOf, CostOf, Ids;
    NextNotBeaten(q, cands, before, c, d);
    ScoreFallsStep(q, d, before, c);
  }

  /** The scores of the picks never rise with the selection rank. */
  lemma {:induction false} PickScoresNeverRise(q: Query, cands: seq<Candidate>, sel: seq<Candidate>, i: nat, j: nat)
    requires q.policy.Valid() && GreedyPrefix(q, cands, sel) && i <= j < |sel|
    ensures Score(q, sel[j], sel[..j]) <= Score(q, sel[i], sel[..i])
    decreases j - i
  {
    hide *;
    if i < j {
      PickScoresNeverRise(q, cands, sel, i, j - 1);
      GreedyPrefixAt(q, cands, sel, j - 1);
      GreedyPrefixAt(q, cands, sel, j);
      assert sel[..j] == sel[..j - 1] + [sel[j - 1]];
      NextScoreNotHigher(q, cands, sel[..j - 1], sel[j - 1], sel[j]);
    }
  }

  /** What any run of the loop returns: distinct documents of the input, at most `topK` of them,
      within the budget. */
  lemma {:induction false} SelectionWithinLimits(q: Query, cands: seq<Candidate>, sel: seq<Candidate>)
    requires GreedyPrefix(q, cands, sel)
    ensures |sel| <= MaxInt(0, q.topK)
    ensures forall c | c in sel :: c in cands
    ensures forall i, j | 0 <= i < j < |sel| :: sel[i].docId != sel[j].docId
    ensures q.budget.Some? && sel != [] ==> CostOf(sel) <= q.budget.value
  {
    hide Sufficient, IsNext;
    if sel != [] {
      var before, last := sel[..|sel| - 1], sel[|sel| - 1];
      SelectionWithinLimits(q, cands, before);
      NextIsFresh(q, cands, before, last);
      hide GreedyPrefix, Without;
      assert sel == before + [last];
      forall i | 0 <= i < |before| ensures sel[i].docId != last.docId {
        assert before[i].docId in Ids(before);
      }
    }
  }

  /** Why a finished run is not longer: it is full, or sufficient, or nothing left fits. And it
      was not sufficient any earlier. */
  lemma RunStopsForAReason(q: Query, cands: seq<Candidate>, sel: seq<Candidate>)
    requires GreedyRun(q, cands, sel)
    ensures |sel| >= q.topK || Sufficient(q, sel)
            || forall c | c in cands && c.docId !in Ids(sel) :: !Fits(q, CostOf(sel), c)
    ensures forall k | 0 <= k < |sel| :: !Sufficient(q, sel[..k])
  {
    hide Score, Sufficient, IsNext;
    forall c | c in cands && c.docId !in Ids(sel) ensures c in Without(cands, Ids(sel)) {
      WithoutMember(cands, Ids(sel), c);
    }
    forall k | 0 <= k < |sel| ensures !Sufficient(q, sel[..k]) {
      GreedyPrefixAt(q, cands, sel, k);
    }
  }

  ghost predicate SlotCovered(sel: seq<Candidate>, slot: string) {
    exists c :: c in sel && slot in CoveredSlots(c)
  }

  lemma {:induction false} SlotsOfMember(sel: seq<Candidate>, slot: string)
    ensures slot in SlotsOf(sel) <==> SlotCovered(sel, slot)
  {
    if sel != [] {
      SlotsOfMember(sel[..|sel| - 1], slot);
      assert sel == sel[..|sel| - 1] + [sel[|sel| - 1]];
    }
  }

  /** Slots are distinct and every candidate rates slots of the query only, as the builder of the
      candidates arranges. */
  predicate WellFormed(q: Query, cands: seq<Candidate>) {
    && (forall i, j | 0 <= i < j < |q.slots| :: q.slots[i] != q.slots[j])
    && (forall c | c in cands :: forall s | s in c.support :: s in q.slots)
  }

  lemma CoveredSlotsAreSlots(q: Query, cands: seq<Candidate>, sel: seq<Candidate>, slot: string)
    requires WellFormed(q, cands) && (forall c | c in sel :: c in cands) && slot in SlotsOf(sel)
    ensures slot in q.slots
  {
    SlotsOfMember(sel, slot);
    var c :| c in sel && slot in CoveredSlots(c);
    assert slot in c.support;
  }

  /** Counting covered slots is the same as checking each of them. */
  lemma SufficientMeansAllCovered(q: Query, cands: seq<Candidate>, sel: seq<Candidate>)
    requires WellFormed(q, cands) && forall c | c in sel :: c in cands
    ensures Sufficient(q, sel) <==>
      q.required != {} && q.required <= RolesOf(sel) && forall s | s in q.slots :: SlotCovered(sel, s)
  {
    hide SlotsOf, SlotCovered, CoveredSlots, RolesOf;
    var all := set s | s in q.slots;
    DifferentCount(q.slots);
    forall s | s in SlotsOf(sel) ensures s in all {
      CoveredSlotsAreSlots(q, cands, sel, s);
    }
    forall s ensures s in SlotsOf(sel) <==> SlotCovered(sel, s) {
      SlotsOfMember(sel, s);
    }
    SubsetCardinality(SlotsOf(sel), all);
    if forall s | s in q.slots :: SlotCovered(sel, s) {
      assert SlotsOf(sel) == all;
    }
  }

  // ---------------------------------------------------------------- when a sufficient set is the smallest

  /** What a query asks to be covered. */
  datatype Need = SlotNeed(slot: string) | RoleNeed(role: string)

  predicate IsNeed(q: Query, n: Need) {
    match n
    case SlotNeed(slot) => slot in q.slots
    case RoleNeed(role) => role in q.required
  }

  predicate Meets(q: Query, c: Candidate, n: Need) {
    && IsNeed(q, n)
    && match n
       case SlotNeed(slot) => slot in CoveredSlots(c)
       case RoleNeed(role) => role in c.roles
  }

  predicate From(cands: seq<Candidate>, sel: seq<Candidate>) {
    forall c | c in sel :: c in cands
  }

  lemma {:induction false} RolesOfMember(sel: seq<Candidate>, role: string)
    ensures role in RolesOf(sel) <==> exists c :: c in sel && role in c.roles
  {
    if sel != [] {
      RolesOfMember(sel[..|sel| - 1], role);
      assert sel == sel[..|sel| - 1] + [sel[|sel| - 1]];
    }
  }

  ghost predicate Met(q: Query, sel: seq<Candidate>, n: Need) {
    exists c :: c in sel && Meets(q, c, n)
  }

  /** A set is sufficient when it meets each need of a query that requires some role. */
  lemma SufficientMeetsNeeds(q: Query, cands: seq<Candidate>, sel: seq<Candidate>)
    requires WellFormed(q, cands) && From(cands, sel)
    ensures Sufficient(q, sel) <==> q.required != {} && forall n | IsNeed(q, n) :: Met(q, sel, n)
  {
    hide WellFormed, Sufficient, RolesOf, CoveredSlots;
    SufficientMeansAllCovered(q, cands, sel);
    forall slot | slot in q.slots ensures SlotCovered(sel, slot) <==> Met(q, sel, SlotNeed(slot)) {
      if SlotCovered(sel, slot) {
        var c :| c in sel && slot in CoveredSlots(c);
        assert Meets(q, c, SlotNeed(slot));
      }
    }
    forall role | role in q.required ensures role in RolesOf(sel) <==> Met(q, sel, RoleNeed(role)) {
      RolesOfMember(sel, role);
      if role in RolesOf(sel) {
        var c :| c in sel && role in c.roles;
        assert Meets(q, c, RoleNeed(role));
      }
    }
    if forall n | IsNeed(q, n) :: Met(q, sel, n) {
      forall slot | slot in q.slots ensures SlotCovered(sel, slot) { assert IsNeed(q, SlotNeed(slot)); }
      forall role | role in q.required ensures role in RolesOf(sel) { assert IsNeed(q, RoleNeed(role)); }
    }
  }

  /** The only candidate that meets some need. */
  ghost predicate Indispensable(q: Query, cands: seq<Candidate>, c: Candidate) {
    exists n :: OnlyMeets(q, cands, c, n)
  }

  ghost predicate OnlyMeets(q: Query, cands: seq<Candidate>, c: Candidate, n: Need) {
    Meets(q, c, n) && forall d | d in cands && Meets(q, d, n) :: d == c
  }

  function Except(cands: seq<Candidate>, c: Candidate): (rest: seq<Candidate>)
    ensures forall d :: d in rest <==> d in cands && d != c
    ensures |rest| <= |cands| && (c in cands ==> |rest| < |cands|)
  {
    if cands == [] then []
    else
      assert cands == [cands[0]] + cands[1..];
      if cands[0] == c then Except(cands[1..], c) else [cands[0]] + Except(cands[1..], c)
  }

  /** Every sufficient choice holds the document. */
  ghost predicate Unavoidable(q: Query, cands: seq<Candidate>, c: Candidate) {
    forall other | From(cands, other) && Sufficient(q, other) :: c in other
  }

  /** For any candidates: a sufficient selection lies within every other sufficient choice exactly when
      each of its documents alone meets some need. */
  lemma UnavoidableIff(q: Query, cands: seq<Candidate>, sel: seq<Candidate>, c: Candidate)
    requires WellFormed(q, cands) && From(cands, sel) && Sufficient(q, sel) && c in cands
    ensures Unavoidable(q, cands, c) <==> Indispensable(q, cands, c)
  {
    hide WellFormed, Sufficient, Meets, IsNeed;
    SufficientMeetsNeeds(q, cands, sel);
    if Indispensable(q, cands, c) {
      var n :| OnlyMeets(q, cands, c, n);
      MeetsIsNeed(q, c, n);
      forall other | From(cands, other) && Sufficient(q, other) ensures c in other {
        SufficientMeetsNeeds(q, cands, other);
        var d :| d in other && Meets(q, d, n);
      }
    } else {
      var other := Except(cands, c);
      forall n | IsNeed(q, n) ensures Met(q, other, n) {
        var d :| d in sel && Meets(q, d, n);
        if d == c {
          assert !OnlyMeets(q, cands, c, n);
          var e :| e in cands && Meets(q, e, n) && e != c;
          assert e in other;
        } else {
          assert d in other;
        }
      }
      SufficientMeetsNeeds(q, cands, other);
      assert From(cands, other) && Sufficient(q, other) && c !in other;
    }
  }

  lemma MeetsIsNeed(q: Query, c: Candidate, n: Need)
    requires Meets(q, c, n)
    ensures IsNeed(q, n)
  {
  }

  /** No sufficient choice among the candidates has fewer documents. */
  ghost predicate Smallest(q: Query, cands: seq<Candidate>, sel: seq<Candidate>) {
    forall other | From(cands, other) && Sufficient(q, other) :: |sel| <= |other|
  }

  /** No two candidates meet one need. */
  ghost predicate Unshared(q: Query, cands: seq<Candidate>) {
    forall c, d, n | c in cands && d in cands && Meets(q, c, n) && Meets(q, d, n) :: c == d
  }

  ghost predicate Useful(q: Query, c: Candidate) {
    exists n :: Meets(q, c, n)
  }

  /** When no two candidates share a slot or required role, a sufficient run is the smallest sufficient
      choice if and only if each document it selected covers one. */
  lemma SmallestIff(q: Query, cands: seq<Candidate>, sel: seq<Candidate>)
    requires WellFormed(q, cands) && GreedyPrefix(q, cands, sel) && Sufficient(q, sel) && Unshared(q, cands)
    ensures Smallest(q, cands, sel) <==> forall c | c in sel :: Useful(q, c)
  {
    hide WellFormed, Sufficient, Meets, IsNeed, GreedyPrefix, IsNext;
    SelectionWithinLimits(q, cands, sel);
    if forall c | c in sel :: Useful(q, c) {
      forall other | From(cands, other) && Sufficient(q, other) ensures |sel| <= |other| {
        forall c | c in sel ensures c in other {
          var n :| Meets(q, c, n);
          assert OnlyMeets(q, cands, c, n);
          UnavoidableIff(q, cands, sel, c);
        }
        DistinctWithin(sel, other);
      }
    } else {
      var c :| c in sel && !Useful(q, c);
      UselessCanGo(q, cands, sel, c);
      assert From(cands, Except(sel, c));
    }
  }

  lemma DistinctWithin(sel: seq<Candidate>, other: seq<Candidate>)
    requires forall i, j | 0 <= i < j < |sel| :: sel[i].docId != sel[j].docId
    requires forall c | c in sel :: c in other
    ensures |sel| <= |other|
  {
    DifferentCount(sel);
    DifferentCount(other);
    SubsetCardinality(Members(sel), Members(other));
  }

  lemma UselessCanGo(q: Query, cands: seq<Candidate>, sel: seq<Candidate>, c: Candidate)
    requires WellFormed(q, cands) && From(cands, sel) && Sufficient(q, sel) && !Useful(q, c)
    ensures Sufficient(q, Except(sel, c))
  {
    hide WellFormed, Sufficient, Meets, IsNeed;
    var rest := Except(sel, c);
    SufficientMeetsNeeds(q, cands, sel);
    SufficientMeetsNeeds(q, cands, rest);
    forall n | IsNeed(q, n) ensures Met(q, rest, n) {
      var d :| d in sel && Meets(q, d, n);
      assert d in rest;
    }
  }

  /** What can be checked before the call: candidates that all cover something and share nothing give the
      smallest sufficient set whenever the run is sufficient. */
  lemma UsefulCandidatesGiveSmallest(q: Query, cands: seq<Candidate>, sel: seq<Candidate>)
    requires WellFormed(q, cands) && GreedyPrefix(q, cands, sel) && Sufficient(q, sel)
    requires Unshared(q, cands) && forall c | c in cands :: Useful(q, c)
    ensures Smallest(q, cands, sel)
  {
    hide WellFormed, Sufficient, Useful, GreedyPrefix, Unshared;
    SelectionWithinLimits(q, cands, sel);
    SmallestIff(q, cands, sel);
  }

  // ---------------------------------------------------------------- sufficient, but not smallest

  const DEFAULT_POLICY := Policy(4.0, 1.0, 1.4, 1.5, 1.0, 1.0, 2.4, 0.7, 0.0)

  /** An official document on the object that the query asks about, without a word of the slot: what
      support it gives comes from its retrieval score alone. */
  function Reputable(low: real): Candidate {
    Candidate("a", {"school"}, 10, 0.96, 1.0, map["s" := low], {}, 0.0, false, "", false, {})
  }

  /** A document of an unverified source on another object, with a word of the only slot and the only
      required role. One of three slot words in the content and a retrieval score of 4 support it by 0.2015. */
  function Enough(high: real): Candidate {
    Candidate("b", {"pump", "hospital"}, 10, 0.42, 0.0, map["s" := high], {"condition"}, 0.0, false, "", false, {})
  }

  function Both(low: real, high: real): seq<Candidate> {
    [Reputable(low), Enough(high)]
  }

  /** Supports on either side of the threshold, the higher one not much above it. */
  predicate Supports(low: real, high: real) {
    0.0 < low < SLOT_THRESHOLD <= high <= 0.25
  }

  const QUERY := Query(["s"], 2, None, {"condition"}, DEFAULT_POLICY)

  lemma OneSlot(c: Candidate, covered: set<string>, support: real)
    requires c.support == map["s" := support]
    ensures SupportScore(c) == support
    ensures SlotGain(c, covered) == if support >= SLOT_THRESHOLD && "s" !in covered then support else 0.0
  {
    assert "s" in c.support && TopOf(c.support) in c.support;
    if support >= SLOT_THRESHOLD && "s" !in covered {
      assert CoveredSlots(c) - covered == {"s"};
      SumOverRemove(c.support, {"s"}, "s");
    } else {
      assert CoveredSlots(c) - covered == {};
    }
  }

  lemma ScoreOf(c: Candidate)
    requires c.tokenCost == 10 && c.riskScore == 0.0 && !c.lowTrustLabel
    ensures Score(QUERY, c, []) == 4.0 * SlotGain(c, {}) + RoleGain(QUERY, c, {}) as real
      + 1.4 * c.trust + 1.5 * c.applicability + 1.0 + SupportScore(c) - 0.7
  {
    var t := Terms(QUERY, c, []);
    hide SlotGain, RoleGain, SupportScore;
    RoundedBounds();
    assert MaxConflict(c, []) == 0.0 && RawConflict(c, []) == Round4(0.0);
    assert t.conflict == 0.0 && t.cost == 1.0 && t.novelty == 1.0;
    WeighEight(DEFAULT_POLICY.Weights(), t.Signed());
  }

  lemma WeighEight(w: seq<real>, t: seq<real>)
    requires |w| == |t| == 8
    ensures Weigh(w, t) == w[0] * t[0] + w[1] * t[1] + w[2] * t[2] + w[3] * t[3]
                         + w[4] * t[4] + w[5] * t[5] + w[6] * t[6] + w[7] * t[7]
  {
    WeighFour(w[4..], t[4..]);
    WeighStep(w, t);
    WeighStep(w[1..], t[1..]);
    WeighStep(w[2..], t[2..]);
    WeighStep(w[3..], t[3..]);
    assert w[1..][1..] == w[2..] && w[2..][1..] == w[3..] && w[3..][1..] == w[4..];
    assert t[1..][1..] == t[2..] && t[2..][1..] == t[3..] && t[3..][1..] == t[4..];
  }

  lemma WeighFour(w: seq<real>, t: seq<real>)
    requires |w| == |t| == 4
    ensures Weigh(w, t) == w[0] * t[0] + w[1] * t[1] + w[2] * t[2] + w[3] * t[3]
  {
    WeighStep(w, t);
    WeighStep(w[1..], t[1..]);
    WeighStep(w[2..], t[2..]);
    WeighStep(w[3..], t[3..]);
    assert w[1..][1..] == w[2..] && w[2..][1..] == w[3..] && w[3..][1..] == [];
    assert t[1..][1..] == t[2..] && t[2..][1..] == t[3..] && t[3..][1..] == [];
  }

  lemma WeighStep(w: seq<real>, t: seq<real>)
    requires |w| == |t| > 0
    ensures Weigh(w, t) == w[0] * t[0] + Weigh(w[1..], t[1..])
  {
  }

  /** The comment in the source speaks of the smallest sufficient set. Under the default policy the loop
      may return a set with a superfluous document although one of its documents suffices alone. */
  lemma SufficientIsNotSmallest(low: real, high: real)
    requires Supports(low, high)
    ensures DEFAULT_POLICY.Valid() && WellFormed(QUERY, Both(low, high))
    ensures GreedyRun(QUERY, Both(low, high), Both(low, high)) && Sufficient(QUERY, Both(low, high))
    ensures Sufficient(QUERY, [Enough(high)]) && !Smallest(QUERY, Both(low, high), Both(low, high))
  {
    hide IsNext, SlotsOf, RolesOf, WellFormed;
    ExampleSums(low, high);
    ReputableFirst(low, high);
    EnoughSecond(low, high);
    assert Both(low, high)[..1] == [Reputable(low)] && [Reputable(low)][..0] == [];
    assert GreedyPrefix(QUERY, Both(low, high), []) && GreedyPrefix(QUERY, Both(low, high), [Reputable(low)]);
    assert From(Both(low, high), [Enough(high)]) && Sufficient(QUERY, [Enough(high)]);
  }

  lemma ExampleSums(low: real, high: real)
    requires Supports(low, high)
    ensures WellFormed(QUERY, Both(low, high))
    ensures SlotsOf([Reputable(low)]) == {} == RolesOf([Reputable(low)]) && SlotsOf([]) == {}
    ensures SlotsOf([Enough(high)]) == SlotsOf(Both(low, high)) == {"s"}
    ensures RolesOf([Enough(high)]) == RolesOf(Both(low, high)) == {"condition"}
  {
    hide SumOver;
    assert "s" in Enough(high).support && "s" in Reputable(low).support;
    assert CoveredSlots(Enough(high)) == {"s"} && CoveredSlots(Reputable(low)) == {};
    ExtendSums([], Reputable(low));
    ExtendSums([], Enough(high));
    ExtendSums([Reputable(low)], Enough(high));
    assert [] + [Reputable(low)] == [Reputable(low)] && [] + [Enough(high)] == [Enough(high)];
    assert [Reputable(low)] + [Enough(high)] == Both(low, high);
  }

  lemma ReputableFirst(low: real, high: real)
    requires Supports(low, high)
    ensures IsNext(QUERY, Both(low, high), [], Reputable(low))
  {
    hide Score, SlotGain, SupportScore, SortsBefore;
    OneSlot(Reputable(low), {}, low);
    OneSlot(Enough(high), {}, high);
    ScoreOf(Reputable(low));
    ScoreOf(Enough(high));
    assert {"condition"} * {"condition"} - {} == {"condition"};
    assert RoleGain(QUERY, Reputable(low), {}) == 0 && RoleGain(QUERY, Enough(high), {}) == 1;
    hide RoleGain;
    WithoutNothing(Both(low, high));
    assert Ids([]) == {};
    var scored := Scored(QUERY, Both(low, high), []);
    assert scored == [Some(Score(QUERY, Reputable(low), [])), Some(Score(QUERY, Enough(high), []))];
    SortIrreflexive(Score(QUERY, Reputable(low), []), Reputable(low));
    HigherIsFirst(Score(QUERY, Reputable(low), []), Reputable(low), Score(QUERY, Enough(high), []), Enough(high));
    assert IsFirstBest(Both(low, high), scored, 0);
  }

  lemma HigherIsFirst(sa: real, a: Candidate, sb: real, b: Candidate)
    requires sa > sb
    ensures !SortsBefore(sb, b, sa, a)
  {
  }

  lemma EnoughSecond(low: real, high: real)
    requires Supports(low, high)
    ensures IsNext(QUERY, Both(low, high), [Reputable(low)], Enough(high))
  {
    hide Score, SortsBefore;
    assert Ids([Reputable(low)]) == {"a"} by {
      assert Reputable(low) in [Reputable(low)];
    }
    assert Both(low, high)[1..] == [Enough(high)] && [Enough(high)][1..] == [];
    assert Without([Enough(high)], {"a"}) == [Enough(high)];
    assert Without(Both(low, high), {"a"}) == [Enough(high)];
    var scored := Scored(QUERY, [Enough(high)], [Reputable(low)]);
    SortIrreflexive(Score(QUERY, Enough(high), [Reputable(low)]), Enough(high));
    assert IsFirstBest([Enough(high)], scored, 0);
  }

  // ---------------------------------------------------------------- the reported evidence

  /** One returned document with the selection metadata attached to it. */
  datatype Evidence = Evidence(
    candidate: Candidate, rank: nat, selectionScore: real,
    slotFlags: seq<bool>, selectedTokenCost: nat)

  ghost predicate Reports(q: Query, picks: seq<Pick>, docs: seq<Evidence>) {
    && |docs| == |picks|
    && forall i | 0 <= i < |docs| ::
      && docs[i].candidate == picks[i].candidate && docs[i].rank == i + 1
      && docs[i].selectionScore == picks[i].reportedScore
      && docs[i].selectedTokenCost == CostOf(Candidates(picks))
      && |docs[i].slotFlags| == |q.slots|
      && forall k | 0 <= k < |q.slots| ::
           docs[i].slotFlags[k] <==> SlotCovered(Candidates(picks), q.slots[k])
  }

  method Attach(q: Query, picks: seq<Pick>) returns (docs: seq<Evidence>)
    ensures Reports(q, picks, docs)
  {
    ghost var sel := Candidates(picks);
    var cost: nat := 0;
    var covered: set<string> := {};
    for i := 0 to |picks|
      invariant cost == CostOf(sel[..i]) && covered == SlotsOf(sel[..i])
    {
      ExtendSums(sel[..i], sel[i]);
      assert sel[..i + 1] == sel[..i] + [sel[i]];
      cost := cost + picks[i].candidate.tokenCost;
      covered := covered + CoveredSlots(picks[i].candidate);
    }
    assert sel[..|picks|] == sel;
    forall slot ensures slot in covered <==> SlotCovered(sel, slot) {
      SlotsOfMember(sel, slot);
    }
    var flags := seq(|q.slots|, k requires 0 <= k < |q.slots| => q.slots[k] in covered);
    docs := seq(|picks|, i requires 0 <= i < |picks| =>
      Evidence(picks[i].candidate, i + 1, picks[i].reportedScore, flags, cost));
  }

  function Cited(docs: seq<Evidence>): seq<Candidate> {
    seq(|docs|, i requires 0 <= i < |docs| => docs[i].candidate)
  }

  /** Distinct retrieved documents, ranked from one, at most `topK`, within the budget they report. */
  ghost predicate WithinLimits(q: Query, retrieved: seq<Candidate>, docs: seq<Evidence>) {
    && |docs| <= MaxInt(0, q.topK)
    && (forall i | 0 <= i < |docs| :: docs[i].candidate in retrieved && docs[i].rank == i + 1)
    && (forall i, j | 0 <= i < j < |docs| :: docs[i].candidate.docId != docs[j].candidate.docId)
    && (forall i | 0 <= i < |docs| :: docs[i].selectedTokenCost == CostOf(Cited(docs))
          && (q.budget.Some? ==> docs[i].selectedTokenCost <= q.budget.value))
  }

  ghost predicate ScoresNeverRise(docs: seq<Evidence>) {
    forall i, j | 0 <= i < j < |docs| :: docs[j].selectionScore <= docs[i].selectionScore
  }

  /** A flag is set exactly when some returned document covers the slot. */
  ghost predicate FlagsAreTrue(q: Query, docs: seq<Evidence>) {
    forall i, k | 0 <= i < |docs| && 0 <= k < |q.slots| ::
      |docs[i].slotFlags| == |q.slots| && (docs[i].slotFlags[k] <==> SlotCovered(Cited(docs), q.slots[k]))
  }

  /** An answer shorter than `topK` covers every slot and every required role, or nothing else fits. */
  ghost predicate ShortForAReason(q: Query, retrieved: seq<Candidate>, docs: seq<Evidence>) {
    |docs| < q.topK ==>
      || (q.required != {} && q.required <= RolesOf(Cited(docs))
          && forall k | 0 <= k < |q.slots| :: SlotCovered(Cited(docs), q.slots[k]))
      || (q.budget.Some? && forall c | c in retrieved && c.docId !in Ids(Cited(docs)) ::
            CostOf(Cited(docs)) + c.tokenCost > q.budget.value)
      || forall c | c in retrieved :: c.docId in Ids(Cited(docs))
  }

  lemma ReportedScoresNeverRise(q: Query, retrieved: seq<Candidate>, picks: seq<Pick>)
    requires q.policy.Valid() && GreedyRun(q, retrieved, Candidates(picks))
    requires forall k | 0 <= k < |picks| :: picks[k].reportedScore
              == Round4(Score(q, picks[k].candidate, Candidates(picks)[..k]))
    ensures forall i, j | 0 <= i < j < |picks| :: picks[j].reportedScore <= picks[i].reportedScore
  {
    hide GreedyPrefix, Score, Round4;
    var sel := Candidates(picks);
    forall i, j | 0 <= i < j < |picks| ensures picks[j].reportedScore <= picks[i].reportedScore {
      PickScoresNeverRise(q, retrieved, sel, i, j);
      Round4Monotone(Score(q, sel[j], sel[..j]), Score(q, sel[i], sel[..i]));
    }
  }

  lemma RunExplainsAnswer(q: Query, retrieved: seq<Candidate>, picks: seq<Pick>, docs: seq<Evidence>)
    requires GreedyRun(q, retrieved, Candidates(picks)) && Reports(q, picks, docs)
    ensures WithinLimits(q, retrieved, docs) && FlagsAreTrue(q, docs)
    ensures WellFormed(q, retrieved) ==> ShortForAReason(q, retrieved, docs)
  {
    hide GreedyPrefix, Sufficient, SlotCovered, RolesOf, CostOf, WellFormed, Affordable;
    var sel := Candidates(picks);
    assert Cited(docs) == sel;
    SelectionWithinLimits(q, retrieved, sel);
    RunStopsForAReason(q, retrieved, sel);
    assert forall i | 0 <= i < |docs| :: docs[i].candidate == sel[i] && sel[i] in sel;
    if WellFormed(q, retrieved) {
      SufficientMeansAllCovered(q, retrieved, sel);
    }
  }

  /** The whole retrieval call, from the ranked candidates on. */
  method QueryEvidenceSet(q: Query, retrieved: seq<Candidate>) returns (docs: seq<Evidence>)
    requires q.policy.Valid()
    ensures q.topK <= 0 || (q.budget.Some? && q.budget.value <= 0) ==> docs == []
    ensures WithinLimits(q, retrieved, docs) && ScoresNeverRise(docs) && FlagsAreTrue(q, docs)
    ensures WellFormed(q, retrieved) && (q.budget.Some? ==> q.budget.value > 0) ==>
              ShortForAReason(q, retrieved, docs)
  {
    docs := [];
    if q.topK <= 0 || (q.budget.Some? && q.budget.value <= 0) {
      return;
    }
    if retrieved == [] {
      return;
    }
    var picks := Select(q, retrieved);
    docs := Attach(q, picks);
    hide GreedyRun, Score, Round4, WithinLimits, FlagsAreTrue, ShortForAReason;
    ReportedScoresNeverRise(q, retrieved, picks);
    RunExplainsAnswer(q, retrieved, picks, docs);
  }
}
