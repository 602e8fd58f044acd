/** Blind double annotation (flood_system/rag_annotation.py): which submissions are accepted, and the
    agreement statistics of two accepted ones. */
module Annotation {
  import opened Ordering

  datatype Item = Item(id: string, candidates: seq<string>)

  datatype Package = Package(id: string, items: seq<Item>, roleSchema: set<string>)

  /** Answers and notes are taken as the original compares them: `answer` in its normal form, `explained`
      for notes that are no placeholder. */
  datatype Decision = Decision(itemId: string, relevant: seq<string>, roles: map<string, seq<string>>,
                               answer: string, explained: bool)

  datatype Submission = Submission(packageId: string, annotator: string, named: bool, decisions: seq<Decision>)

  // ---------------------------------------------------------------- validation

  function ItemIds(items: seq<Item>): (ids: seq<string>)
    ensures |ids| == |items| && forall i | 0 <= i < |items| :: ids[i] == items[i].id
  {
    if items == [] then [] else ItemIds(items[..|items| - 1]) + [items[|items| - 1].id]
  }

  function DecisionIds(decisions: seq<Decision>): (ids: seq<string>)
    ensures |ids| == |decisions| && forall i | 0 <= i < |decisions| :: ids[i] == decisions[i].itemId
  {
    if decisions == [] then [] else DecisionIds(decisions[..|decisions| - 1]) + [decisions[|decisions| - 1].itemId]
  }

  /** A Python dictionary by identifier: the last item of a name stays. */
  function ItemById(items: seq<Item>): map<string, Item> {
    if items == [] then map[]
    else ItemById(items[..|items| - 1])[items[|items| - 1].id := items[|items| - 1]]
  }

  predicate RolesAllowed(schema: set<string>, roles: seq<string>) {
    roles != [] && forall role | role in roles :: role in schema
  }

  predicate DecisionAccepted(package: Package, d: Decision) {
    var byId := ItemById(package.items);
    && d.itemId in byId
    && (forall doc | doc in d.relevant :: doc in byId[d.itemId].candidates)
    && (d.relevant != [] || d.explained)
    && d.roles.Keys == Members(d.relevant)
    && (forall doc | doc in d.roles :: RolesAllowed(package.roleSchema, d.roles[doc]))
  }

  predicate Accepted(package: Package, s: Submission) {
    && s.packageId == package.id && s.named
    && |s.decisions| == |package.items|
    && AllDifferent(DecisionIds(s.decisions))
    && forall d | d in s.decisions :: DecisionAccepted(package, d)
  }

  method ValidateSubmission(package: Package, s: Submission) returns (ok: bool)
    ensures ok <==> Accepted(package, s)
  {
    if s.packageId != package.id || !s.named {
      return false;
    }
    DifferentCount(DecisionIds(s.decisions));
    if |s.decisions| != |package.items| || |Members(DecisionIds(s.decisions))| != |s.decisions| {
      return false;
    }
    for i := 0 to |s.decisions|
      invariant forall k | 0 <= k < i :: DecisionAccepted(package, s.decisions[k])
    {
      if !DecisionAccepted(package, s.decisions[i]) {
        return false;
      }
    }
    return true;
  }

  lemma {:induction false} KnownIds(items: seq<Item>)
    ensures ItemById(items).Keys == Members(ItemIds(items))
    ensures forall id | id in ItemById(items) :: ItemById(items)[id].id == id && ItemById(items)[id] in items
  {
    if items != [] {
      var front, last := items[..|items| - 1], items[|items| - 1];
      KnownIds(front);
      assert Members(ItemIds(items)) == Members(ItemIds(front)) + {last.id} by {
        assert ItemIds(items) == ItemIds(front) + [last.id];
      }
      assert items == front + [last];
    }
  }

  /** Three cheap checks force a bijection: as many decisions as items, all different, each to a known
      item. In particular the items of the package have different identifiers. */
  lemma AcceptedIsBijection(package: Package, s: Submission)
    requires Accepted(package, s)
    ensures AllDifferent(ItemIds(package.items))
    ensures Members(DecisionIds(s.decisions)) == Members(ItemIds(package.items))
  {
    var ids, known := DecisionIds(s.decisions), ItemIds(package.items);
    KnownIds(package.items);
    forall id | id in Members(ids) ensures id in Members(known) {
      var i :| 0 <= i < |ids| && ids[i] == id;
      assert DecisionAccepted(package, s.decisions[i]);
    }
    DifferentCount(ids);
    DifferentCount(known);
    SubsetCardinality(Members(ids), Members(known));
  }

  function DecisionById(decisions: seq<Decision>): map<string, Decision> {
    if decisions == [] then map[]
    else DecisionById(decisions[..|decisions| - 1])[decisions[|decisions| - 1].itemId := decisions[|decisions| - 1]]
  }

  lemma {:induction false} DecidedIds(decisions: seq<Decision>)
    ensures DecisionById(decisions).Keys == Members(DecisionIds(decisions))
    ensures forall id | id in DecisionById(decisions) ::
      DecisionById(decisions)[id].itemId == id && DecisionById(decisions)[id] in decisions
  {
    if decisions != [] {
      var front, last := decisions[..|decisions| - 1], decisions[|decisions| - 1];
      DecidedIds(front);
      assert Members(DecisionIds(decisions)) == Members(DecisionIds(front)) + {last.itemId} by {
        assert DecisionIds(decisions) == DecisionIds(front) + [last.itemId];
      }
      assert decisions == front + [last];
    }
  }

  /** Looking an item up among the decisions never fails and finds a decision about that item. */
  lemma LookupIsTotal(package: Package, s: Submission)
    requires Accepted(package, s)
    ensures Decided(package.items, DecisionById(s.decisions))
  {
    AcceptedIsBijection(package, s);
    DecidedIds(s.decisions);
    forall item | item in package.items ensures item.id in DecisionById(s.decisions) {
      var i :| 0 <= i < |package.items| && package.items[i] == item;
      assert ItemIds(package.items)[i] == item.id;
    }
    forall item | item in package.items
      ensures forall doc | doc in DecisionById(s.decisions)[item.id].relevant :: doc in item.candidates
      ensures DecisionById(s.decisions)[item.id].roles.Keys == Members(DecisionById(s.decisions)[item.id].relevant)
    {
      var d := DecisionById(s.decisions)[item.id];
      assert DecisionAccepted(package, d);
      KnownIds(package.items);
      SameIdSameItem(package.items, item, ItemById(package.items)[item.id]);
    }
  }

  lemma SameIdSameItem(items: seq<Item>, x: Item, y: Item)
    requires AllDifferent(ItemIds(items)) && x in items && y in items && x.id == y.id
    ensures x == y
  {
    var i :| 0 <= i < |items| && items[i] == x;
    var j :| 0 <= j < |items| && items[j] == y;
    assert ItemIds(items)[i] == ItemIds(items)[j];
  }

  /** There is a decision about every item, and it selects candidates of the item only. */
  predicate Decided(items: seq<Item>, found: map<string, Decision>) {
    forall item | item in items ::
      && item.id in found
      && (forall doc | doc in found[item.id].relevant :: doc in item.candidates)
      && found[item.id].roles.Keys == Members(found[item.id].relevant)
  }

  /** A decision about the item selects candidates of it and gives each of them roles of the schema; one that selects
      nothing says why. */
  ghost predicate ProperFor(package: Package, item: Item, d: Decision) {
    && item.id == d.itemId
    && (forall doc | doc in d.relevant :: doc in item.candidates)
    && (d.relevant == [] ==> d.explained)
    && (forall doc :: doc in d.roles <==> doc in d.relevant)
    && (forall doc | doc in d.roles :: d.roles[doc] != [])
    && (forall doc, role | doc in d.roles && role in d.roles[doc] :: role in package.roleSchema)
  }

  ghost predicate Proper(package: Package, d: Decision) {
    exists item :: item in package.items && ProperFor(package, item, d)
  }

  /** Accepted is what names its annotator and its package and has one proper decision for every item. */
  lemma AcceptedIff(package: Package, s: Submission)
    ensures Accepted(package, s) <==>
      && s.packageId == package.id && s.named
      && AllDifferent(ItemIds(package.items)) && AllDifferent(DecisionIds(s.decisions))
      && Members(DecisionIds(s.decisions)) == Members(ItemIds(package.items))
      && forall d | d in s.decisions :: Proper(package, d)
  {
    hide DecisionAccepted, Proper, AllDifferent, Members;
    if Accepted(package, s) {
      AcceptedIsBijection(package, s);
    }
    DifferentCount(DecisionIds(s.decisions));
    DifferentCount(ItemIds(package.items));
    if AllDifferent(ItemIds(package.items)) && Members(DecisionIds(s.decisions)) == Members(ItemIds(package.items)) {
      forall d | d in s.decisions ensures DecisionAccepted(package, d) <==> Proper(package, d) {
        ProperIff(package, d);
      }
    }
  }

  lemma ProperIff(package: Package, d: Decision)
    requires AllDifferent(ItemIds(package.items))
    ensures DecisionAccepted(package, d) <==> Proper(package, d)
  {
    hide DecisionAccepted, ProperFor, ItemById;
    KnownIds(package.items);
    var byId := ItemById(package.items);
    if DecisionAccepted(package, d) {
      AcceptedKnown(package, d);
    }
    if Proper(package, d) {
      var item :| item in package.items && ProperFor(package, item, d);
      ProperId(package, item, d);
      var i :| 0 <= i < |package.items| && package.items[i] == item;
      assert ItemIds(package.items)[i] == d.itemId;
      SameIdSameItem(package.items, item, byId[d.itemId]);
    }
    if d.itemId in byId {
      ProperForIff(package, d);
    }
  }

  lemma AcceptedKnown(package: Package, d: Decision)
    requires DecisionAccepted(package, d)
    ensures d.itemId in ItemById(package.items)
  {
  }

  lemma ProperId(package: Package, item: Item, d: Decision)
    requires ProperFor(package, item, d)
    ensures item.id == d.itemId
  {
  }

  lemma ProperForIff(package: Package, d: Decision)
    requires d.itemId in ItemById(package.items)
    ensures ProperFor(package, ItemById(package.items)[d.itemId], d) <==> DecisionAccepted(package, d)
  {
    KnownIds(package.items);
    hide ItemById, ItemIds;
    KeysAre(d.roles, d.relevant);
  }

  lemma KeysAre(roles: map<string, seq<string>>, docs: seq<string>)
    ensures roles.Keys == Members(docs) <==> forall doc :: doc in roles <==> doc in docs
  {
    assert forall doc :: doc in roles <==> doc in roles.Keys;
    assert forall doc :: doc in docs <==> doc in Members(docs);
  }

  // ---------------------------------------------------------------- Cohen's kappa

  function Ones(v: seq<bool>): nat {
    if v == [] then 0 else Ones(v[..|v| - 1]) + if v[|v| - 1] then 1 else 0
  }

  function Matches(left: seq<bool>, right: seq<bool>): nat
    requires |left| == |right|
  {
    if left == [] then 0
    else
      Matches(left[..|left| - 1], right[..|left| - 1]) + if left[|left| - 1] == right[|left| - 1] then 1 else 0
  }

  function Chance(p: real, q: real): real {
    p * q + (1.0 - p) * (1.0 - q)
  }

  function KappaOf(observed: real, p: real, q: real): real {
    if Chance(p, q) == 1.0 then (if observed == 1.0 then 1.0 else 0.0)
    else (observed - Chance(p, q)) / (1.0 - Chance(p, q))
  }

  function Kappa(left: seq<bool>, right: seq<bool>): real {
    if |left| != |right| || left == [] then 0.0
    else
      var n := |left| as real;
      KappaOf(Matches(left, right) as real / n, Ones(left) as real / n, Ones(right) as real / n)
  }

  /** Two annotators cannot agree less often than their rates force them to. */
  lemma {:induction false} AgreementIsForced(left: seq<bool>, right: seq<bool>)
    requires |left| == |right|
    ensures Ones(left) <= |left| && Ones(right) <= |left|
    ensures Matches(left, right) <= |left|
    ensures Matches(left, right) >= Ones(left) + Ones(right) - |left|
    ensures Matches(left, right) >= |left| - Ones(left) - Ones(right)
    ensures Ones(left) == Ones(right) == |left| || Ones(left) == Ones(right) == 0 ==> Matches(left, right) == |left|
    ensures Matches(left, right) == |left| <==> left == right
  {
    if left != [] {
      var n := |left| - 1;
      AgreementIsForced(left[..n], right[..n]);
      assert left == left[..n] + [left[n]] && right == right[..n] + [right[n]];
    }
  }

  lemma ChanceBounds(o: real, p: real, q: real)
    requires 0.0 <= p <= 1.0 && 0.0 <= q <= 1.0 && 0.0 <= o <= 1.0
    requires o >= p + q - 1.0 && o >= 1.0 - p - q
    ensures 0.0 <= Chance(p, q) <= 1.0
    ensures 2.0 * Chance(p, q) <= 1.0 + o
    ensures Chance(p, q) == 1.0 ==> (p == 0.0 && q == 0.0) || (p == 1.0 && q == 1.0)
  {
    Product(p, q);
    Product(1.0 - p, 1.0 - q);
    Product(p, 1.0 - q);
    Product(q, 1.0 - p);
    var a, b, c, d := p * q, (1.0 - p) * (1.0 - q), p * (1.0 - q), q * (1.0 - p);
    assert a >= 0.0 && b >= 0.0 && c >= 0.0 && d >= 0.0 && Chance(p, q) == a + b;
    assert c == p - a && d == q - a && b == 1.0 - p - q + a;
    var t, sq := (1.0 - p - q) * (1.0 - p - q), (p - q) * (p - q);
    AtMostItself(1.0 - p - q, o);
    Square(p - q);
    ChanceIdentity(p, q);
    assert 2.0 * Chance(p, q) == 1.0 + t - sq;
  }

  lemma AtMostItself(x: real, bound: real)
    requires -bound <= x <= bound <= 1.0
    ensures x * x <= bound
  {
    var m := if x >= 0.0 then x else -x;
    Product(m, 1.0 - m);
    assert x * x == m * m == m - m * (1.0 - m);
  }

  lemma ChanceIdentity(p: real, q: real)
    ensures 2.0 * (p * q + (1.0 - p) * (1.0 - q)) == 1.0 + (1.0 - p - q) * (1.0 - p - q) - (p - q) * (p - q)
  {
    var pp, qq, pq := p * p, q * q, p * q;
    assert (1.0 - p) * (1.0 - q) == 1.0 - p - q + pq;
    assert (1.0 - p - q) * (1.0 - p - q) == 1.0 + pp + qq - 2.0 * p - 2.0 * q + 2.0 * pq;
    assert (p - q) * (p - q) == pp + qq - 2.0 * pq;
  }

  lemma Product(x: real, y: real)
    requires x >= 0.0 && y >= 0.0
    ensures x * y >= 0.0
    ensures x * y == 0.0 <==> x == 0.0 || y == 0.0
  {
  }

  lemma Square(x: real)
    ensures x * x >= 0.0
  {
  }

  lemma KappaOfBounds(o: real, p: real, q: real)
    requires 0.0 <= p <= 1.0 && 0.0 <= q <= 1.0 && 0.0 <= o <= 1.0
    requires o >= p + q - 1.0 && o >= 1.0 - p - q
    ensures -1.0 <= KappaOf(o, p, q) <= 1.0
    ensures Chance(p, q) != 1.0 ==> (KappaOf(o, p, q) == 1.0 <==> o == 1.0)
  {
    ChanceBounds(o, p, q);
    var e := Chance(p, q);
    if e != 1.0 {
      Quotient(o - e, 1.0 - e);
    }
  }

  lemma Quotient(x: real, y: real)
    requires y > 0.0
    ensures x >= -y ==> x / y >= -1.0
    ensures x <= y ==> x / y <= 1.0
    ensures x / y == 1.0 <==> x == y
  {
    assert x / y * y == x;
  }

  lemma Rate(count: nat, n: nat)
    requires n > 0 && count <= n
    ensures 0.0 <= count as real / n as real <= 1.0
    ensures count as real / n as real == 1.0 <==> count == n
    ensures count as real / n as real == 0.0 <==> count == 0
  {
    Quotient(count as real, n as real);
    assert count as real / n as real * n as real == count as real;
  }

  lemma Rates(m: nat, a: nat, b: nat, n: nat)
    requires n > 0 && m >= a + b - n && m >= n - a - b
    ensures m as real / n as real >= a as real / n as real + b as real / n as real - 1.0
    ensures m as real / n as real >= 1.0 - a as real / n as real - b as real / n as real
  {
    var r := n as real;
    assert m as real / r * r == m as real && a as real / r * r == a as real && b as real / r * r == b as real;
    var d := m as real / r - a as real / r - b as real / r + 1.0;
    assert d * r >= 0.0;
    var f := m as real / r + a as real / r + b as real / r - 1.0;
    assert f * r >= 0.0;
  }

  /** Kappa lies between -1 and 1, and it is 1 exactly for equal vectors. Where chance agreement is
      certain, the observed agreement is complete: the arm that answers 0 is never taken. */
  lemma KappaBounds(left: seq<bool>, right: seq<bool>)
    requires |left| == |right| > 0
    ensures -1.0 <= Kappa(left, right) <= 1.0
    ensures Kappa(left, right) == 1.0 <==> left == right
    ensures Chance(Ones(left) as real / |left| as real, Ones(right) as real / |left| as real) == 1.0 ==>
      Matches(left, right) as real / |left| as real == 1.0
  {
    hide Chance, KappaOf, Matches, Ones;
    AgreementIsForced(left, right);
    var n, m, a, b := |left|, Matches(left, right), Ones(left), Ones(right);
    Rate(m, n);
    Rate(a, n);
    Rate(b, n);
    Rates(m, a, b, n);
    var o, p, q := m as real / n as real, a as real / n as real, b as real / n as real;
    ChanceBounds(o, p, q);
    KappaOfBounds(o, p, q);
    if Chance(p, q) == 1.0 {
      CertainChance(o, p, q);
    }
  }

  lemma CertainChance(o: real, p: real, q: real)
    requires Chance(p, q) == 1.0 && o == 1.0
    ensures KappaOf(o, p, q) == 1.0
  {
  }

  lemma {:induction false} MatchesSymmetric(left: seq<bool>, right: seq<bool>)
    requires |left| == |right|
    ensures Matches(left, right) == Matches(right, left)
  {
    if left != [] {
      MatchesSymmetric(left[..|left| - 1], right[..|left| - 1]);
    }
  }

  lemma KappaSymmetric(left: seq<bool>, right: seq<bool>)
    ensures Kappa(left, right) == Kappa(right, left)
  {
    if |left| == |right| > 0 {
      MatchesSymmetric(left, right);
      assert forall p, q :: Chance(p, q) == Chance(q, p);
    }
  }

  // ---------------------------------------------------------------- kappa in counts

  /** n * n times the agreement expected by chance of two annotators who chose a and b of n. */
  function ChancePairs(n: nat, a: nat, b: nat): int {
    a * b + (n - a) * (n - b)
  }

  function ChosenPlaces(v: seq<bool>): set<nat> {
    set i: nat | i < |v| && v[i]
  }

  function EqualPlaces(left: seq<bool>, right: seq<bool>): set<nat>
    requires |left| == |right|
  {
    set i: nat | i < |left| && left[i] == right[i]
  }

  lemma {:induction false} OnesAre(v: seq<bool>)
    ensures Ones(v) == |ChosenPlaces(v)|
  {
    if v != [] {
      var n := |v| - 1;
      OnesAre(v[..n]);
      assert ChosenPlaces(v) == ChosenPlaces(v[..n]) + if v[n] then {n} else {};
    }
  }

  lemma {:induction false} MatchesAre(left: seq<bool>, right: seq<bool>)
    requires |left| == |right|
    ensures Matches(left, right) == |EqualPlaces(left, right)|
  {
    if left != [] {
      var n := |left| - 1;
      MatchesAre(left[..n], right[..n]);
      assert EqualPlaces(left, right) == EqualPlaces(left[..n], right[..n]) + if left[n] == right[n] then {n} else {};
    }
  }

  lemma Scale(x: nat, n: nat)
    requires n > 0
    ensures x as real / n as real * n as real == x as real
  {
  }

  lemma ChanceInCounts(n: nat, a: nat, b: nat)
    requires n > 0
    ensures Chance(a as real / n as real, b as real / n as real) * (n as real * n as real) == ChancePairs(n, a, b) as real
  {
    var r, p, q := n as real, a as real / n as real, b as real / n as real;
    Scale(a, n);
    Scale(b, n);
    Regroup(p, q, r);
    Regroup(1.0 - p, 1.0 - q, r);
    assert (1.0 - p) * r == (n - a) as real && (1.0 - q) * r == (n - b) as real;
    assert (p * r) * (q * r) == (a * b) as real;
    assert ((1.0 - p) * r) * ((1.0 - q) * r) == ((n - a) * (n - b)) as real;
    Distribute(p * q, (1.0 - p) * (1.0 - q), r * r);
  }

  lemma Regroup(p: real, q: real, r: real)
    ensures p * q * (r * r) == (p * r) * (q * r)
  {
    assert (p * r) * (q * r) == p * (r * (q * r));
    assert r * (q * r) == q * (r * r);
  }

  lemma Distribute(x: real, y: real, z: real)
    ensures (x + y) * z == x * z + y * z
  {
  }

  lemma QuotientIs(k: real, x: real, y: real)
    requires y != 0.0 && x == k * y
    ensures x / y == k
  {
  }

  lemma Cancel(x: real, y: real, s: real)
    requires y != 0.0 && s > 0.0
    ensures y * s != 0.0 && (x * s) / (y * s) == x / y
  {
    var k := x / y;
    assert k * y == x;
    assert k * y * s == k * (y * s);
    QuotientIs(k, x * s, y * s);
  }

  lemma ScaledKappa(o: real, e: real, s: real, matches: real, chance: real)
    requires s > 0.0 && o * s == matches && e * s == chance
    ensures chance == s <==> e == 1.0
    ensures e != 1.0 ==> (o - e) / (1.0 - e) == (matches - chance) / (s - chance)
  {
    Distribute(o, -e, s);
    Distribute(1.0, -e, s);
    assert (1.0 - e) * s == s - chance && (o - e) * s == matches - chance;
    if e != 1.0 {
      Cancel(o - e, 1.0 - e, s);
    }
  }

  lemma KappaUnfold(left: seq<bool>, right: seq<bool>)
    requires |left| == |right| > 0
    ensures var r := |left| as real;
      var e := Chance(Ones(left) as real / r, Ones(right) as real / r);
      e != 1.0 ==> Kappa(left, right) == (Matches(left, right) as real / r - e) / (1.0 - e)
  {
    hide Chance, Matches, Ones;
  }

  function Times(x: real, y: real): real { x * y }

  function Pairs(m: nat, n: nat): nat { m * n }

  lemma RatesInPairs(n: nat, m: nat, a: nat, b: nat)
    requires n > 0
    ensures Pairs(n, n) > 0
    ensures Times(m as real / n as real, Pairs(n, n) as real) == Pairs(m, n) as real
    ensures Times(Chance(a as real / n as real, b as real / n as real), Pairs(n, n) as real) == ChancePairs(n, a, b) as real
  {
    ChanceInCounts(n, a, b);
    ScaledRate(m, n);
    SquareIs(n);
    hide Chance, ChancePairs;
    assert Pairs(n, n) as real == n as real * n as real;
  }

  lemma CountsDecide(k: real, o: real, e: real, total: int, matches: int, chance: int)
    requires total > 0 && Times(o, total as real) == matches as real && Times(e, total as real) == chance as real
    requires if e == 1.0 then k == 1.0 else k == (o - e) / (1.0 - e)
    ensures k == if chance == total then 1.0 else (matches - chance) as real / (total - chance) as real
  {
    ScaledKappa(o, e, total as real, matches as real, chance as real);
  }

  lemma KappaInPairs(left: seq<bool>, right: seq<bool>)
    requires |left| == |right| > 0
    ensures var n := |left|;
      var total, matches, chance := Pairs(n, n), Pairs(Matches(left, right), n), ChancePairs(n, Ones(left), Ones(right));
      Kappa(left, right) == if chance == total then 1.0 else (matches - chance) as real / (total - chance) as real
  {
    hide *;
    var n, m, a, b := |left|, Matches(left, right), Ones(left), Ones(right);
    KappaUnfold(left, right);
    var e := Chance(a as real / n as real, b as real / n as real);
    RatesInPairs(n, m, a, b);
    if e == 1.0 {
      CertainKappa(left, right);
    }
    CountsDecide(Kappa(left, right), m as real / n as real, e, Pairs(n, n), Pairs(m, n), ChancePairs(n, a, b));
  }

  /** Kappa in counts: how far the matches exceed chance, out of how far they could exceed it. */
  lemma KappaInCounts(left: seq<bool>, right: seq<bool>)
    ensures |left| != |right| || left == [] ==> Kappa(left, right) == 0.0
    ensures |left| == |right| > 0 ==> var n, m := |left|, |EqualPlaces(left, right)|;
            var chance := ChancePairs(n, |ChosenPlaces(left)|, |ChosenPlaces(right)|);
            Kappa(left, right) == if chance == n * n then 1.0 else (m * n - chance) as real / (n * n - chance) as real
  {
    if |left| == |right| > 0 {
      MatchesAre(left, right);
      OnesAre(left);
      OnesAre(right);
      KappaInPairs(left, right);
      hide Kappa, Matches, Ones, ChancePairs, EqualPlaces, ChosenPlaces;
    }
  }

  lemma CertainKappa(left: seq<bool>, right: seq<bool>)
    requires |left| == |right| > 0
    requires Chance(Ones(left) as real / |left| as real, Ones(right) as real / |left| as real) == 1.0
    ensures Kappa(left, right) == 1.0
  {
    hide Chance, Matches, Ones;
    KappaBounds(left, right);
  }

  lemma ScaledRate(m: nat, n: nat)
    requires n > 0
    ensures m as real / n as real * (n as real * n as real) == (m * n) as real
  {
    Scale(m, n);
    assert m as real / n as real * (n as real * n as real) == (m as real / n as real * n as real) * n as real;
  }

  lemma SquareIs(n: nat)
    requires n > 0
    ensures n as real * n as real == (n * n) as real && n as real * n as real > 0.0
  {
  }

  /** Kappa is positive exactly for more matches than chance gives, and zero exactly for as many. */
  lemma KappaSign(left: seq<bool>, right: seq<bool>)
    requires |left| == |right| > 0
    ensures var n, m := |left|, |EqualPlaces(left, right)|;
            var chance := ChancePairs(n, |ChosenPlaces(left)|, |ChosenPlaces(right)|);
            chance == n * n || ((Kappa(left, right) > 0.0 <==> m * n > chance)
                                && (Kappa(left, right) == 0.0 <==> m * n == chance))
  {
    hide *;
    KappaInCounts(left, right);
    AgreementIsForced(left, right);
    OnesAre(left);
    OnesAre(right);
    var n, m := |left|, |EqualPlaces(left, right)|;
    var chance := ChancePairs(n, Ones(left), Ones(right));
    ChanceIsBounded(n, Ones(left), Ones(right));
    if chance != n * n {
      SignOf((m * n - chance) as real, (n * n - chance) as real);
    }
  }

  lemma ChanceIsBounded(n: nat, a: nat, b: nat)
    requires a <= n && b <= n
    ensures ChancePairs(n, a, b) <= n * n
  {
    assert n * n == a * b + (n - a) * (n - b) + a * (n - b) + (n - a) * b;
    assert a * (n - b) >= 0 && (n - a) * b >= 0;
  }

  lemma SignOf(x: real, y: real)
    requires y > 0.0
    ensures (x / y > 0.0 <==> x > 0.0) && (x / y == 0.0 <==> x == 0.0)
  {
    assert x / y * y == x;
  }

  // ---------------------------------------------------------------- comparing two submissions

  function VotesOn(item: Item, d: Decision): seq<bool> {
    seq(|item.candidates|, i requires 0 <= i < |item.candidates| => item.candidates[i] in d.relevant)
  }

  function Jaccard(left: set<string>, right: set<string>): real {
    if left + right == {} then 1.0 else |left * right| as real / |left + right| as real
  }

  predicate SameRoles(left: Decision, right: Decision, doc: string) {
    Members(RolesOf(left, doc)) == Members(RolesOf(right, doc))
  }

  function RolesOf(d: Decision, doc: string): seq<string> {
    if doc in d.roles then d.roles[doc] else []
  }

  function Shared(left: Decision, right: Decision): set<string> {
    Members(left.relevant) * Members(right.relevant)
  }

  function SameRolesIn(left: Decision, right: Decision, docs: set<string>): set<string> {
    set doc | doc in docs && SameRoles(left, right, doc)
  }

  function SharedRoles(left: Decision, right: Decision): set<string> {
    SameRolesIn(left, right, Shared(left, right))
  }

  predicate Agree(left: Decision, right: Decision) {
    Members(left.relevant) == Members(right.relevant) && left.roles == right.roles && left.answer == right.answer
  }

  /** Agreement up to the order in which roles were listed. */
  predicate AgreeInSubstance(left: Decision, right: Decision) {
    && Members(left.relevant) == Members(right.relevant)
    && (forall doc | doc in Shared(left, right) :: SameRoles(left, right, doc))
    && left.answer == right.answer
  }

  datatype Tally = Tally(first: seq<bool>, second: seq<bool>, jaccards: real, rolePairs: nat, roleMatches: nat,
                         answerMatches: nat, disagreements: seq<string>)

  function TallyOf(items: seq<Item>, left: map<string, Decision>, right: map<string, Decision>): (t: Tally)
    requires Decided(items, left) && Decided(items, right)
  {
    if items == [] then Tally([], [], 0.0, 0, 0, 0, [])
    else
      var item := items[|items| - 1];
      AddItem(TallyOf(items[..|items| - 1], left, right), item, left[item.id], right[item.id])
  }

  function AddItem(t: Tally, item: Item, l: Decision, r: Decision): Tally {
    Tally(t.first + VotesOn(item, l), t.second + VotesOn(item, r),
      t.jaccards + Jaccard(Members(l.relevant), Members(r.relevant)),
      t.rolePairs + |Shared(l, r)|, t.roleMatches + |SharedRoles(l, r)|,
      t.answerMatches + if l.answer == r.answer then 1 else 0,
      if Agree(l, r) then t.disagreements else t.disagreements + [item.id])
  }

  datatype Comparison = Comparison(kappa: real, jaccard: real, roleAgreement: real, answerAgreement: real,
                                   disagreements: seq<string>)

  /** The statistics before they are rounded. */
  function Statistics(t: Tally, n: nat): Comparison
    requires n > 0
  {
    Comparison(Kappa(t.first, t.second), t.jaccards / n as real,
      if t.rolePairs > 0 then t.roleMatches as real / t.rolePairs as real else 1.0,
      t.answerMatches as real / n as real, t.disagreements)
  }

  function Rounded(c: Comparison): Comparison {
    Comparison(Round4(c.kappa), Round4(c.jaccard), Round4(c.roleAgreement), Round4(c.answerAgreement), c.disagreements)
  }

  method CountRoles(l: Decision, r: Decision) returns (pairs: nat, matches: nat)
    ensures pairs == |Shared(l, r)| && matches == |SharedRoles(l, r)|
  {
    hide Shared, SameRoles;
    pairs, matches := 0, 0;
    var all := Shared(l, r);
    var rest := all;
    while rest != {}
      invariant rest <= all && pairs == |all| - |rest| && matches == |SameRolesIn(l, r, all - rest)|
      decreases |rest|
    {
      var doc :| doc in rest;
      var seen := all - rest;
      rest, pairs := rest - {doc}, pairs + 1;
      assert all - rest == seen + {doc};
      if SameRoles(l, r, doc) {
        assert SameRolesIn(l, r, seen + {doc}) == SameRolesIn(l, r, seen) + {doc};
        matches := matches + 1;
      } else {
        assert SameRolesIn(l, r, seen + {doc}) == SameRolesIn(l, r, seen);
      }
    }
    assert all - rest == all;
  }

  lemma EmptyTally(items: seq<Item>, left: map<string, Decision>, right: map<string, Decision>)
    ensures Decided(items[..0], left) && Decided(items[..0], right)
    ensures TallyOf(items[..0], left, right) == Tally([], [], 0.0, 0, 0, 0, [])
  {
  }

  lemma TallyStep(items: seq<Item>, left: map<string, Decision>, right: map<string, Decision>, i: nat)
    requires Decided(items, left) && Decided(items, right) && i < |items|
    ensures Decided(items[..i], left) && Decided(items[..i], right)
    ensures Decided(items[..i + 1], left) && Decided(items[..i + 1], right)
    ensures items[i].id in left && items[i].id in right
    ensures TallyOf(items[..i + 1], left, right)
         == AddItem(TallyOf(items[..i], left, right), items[i], left[items[i].id], right[items[i].id])
  {
    hide AddItem;
    DecidedPrefix(items, left, i);
    DecidedPrefix(items, right, i);
    DecidedPrefix(items, left, i + 1);
    DecidedPrefix(items, right, i + 1);
    assert items[..i + 1][..i] == items[..i];
  }

  method MakeTally(items: seq<Item>, left: map<string, Decision>, right: map<string, Decision>) returns (t: Tally)
    requires Decided(items, left) && Decided(items, right)
    ensures t == TallyOf(items, left, right)
  {
    hide TallyOf, Jaccard, VotesOn, Shared, SharedRoles, Agree, Decided, Members;
    t := Tally([], [], 0.0, 0, 0, 0, []);
    EmptyTally(items, left, right);
    for i := 0 to |items|
      invariant Decided(items[..i], left) && Decided(items[..i], right)
      invariant t == TallyOf(items[..i], left, right)
    {
      TallyStep(items, left, right, i);
      var item := items[i];
      var l, r := left[item.id], right[item.id];
      var pairs, matches := CountRoles(l, r);
      t := Tally(t.first + VotesOn(item, l), t.second + VotesOn(item, r),
        t.jaccards + Jaccard(Members(l.relevant), Members(r.relevant)),
        t.rolePairs + pairs, t.roleMatches + matches,
        t.answerMatches + if l.answer == r.answer then 1 else 0,
        if Agree(l, r) then t.disagreements else t.disagreements + [item.id]);
    }
    assert items[..|items|] == items;
  }

  method CompareSubmissions(package: Package, first: Submission, second: Submission)
    returns (result: Option<Comparison>)
    requires package.items != []
    ensures result.Some? <==> Accepted(package, first) && Accepted(package, second) && first.annotator != second.annotator
    ensures result.Some? ==>
      && Decided(package.items, DecisionById(first.decisions)) && Decided(package.items, DecisionById(second.decisions))
      && result.value == Rounded(Statistics(
           TallyOf(package.items, DecisionById(first.decisions), DecisionById(second.decisions)), |package.items|))
      && Reports(package.items, DecisionById(first.decisions), DecisionById(second.decisions), result.value)
  {
    hide Accepted, Statistics, Rounded, Shared, SharedRoles, Agree, Decided, Reports;
    var firstOk := ValidateSubmission(package, first);
    var secondOk := ValidateSubmission(package, second);
    if !firstOk || !secondOk || first.annotator == second.annotator {
      return None;
    }
    LookupIsTotal(package, first);
    LookupIsTotal(package, second);
    var left, right := DecisionById(first.decisions), DecisionById(second.decisions);
    var t := MakeTally(package.items, left, right);
    ReportIs(package.items, left, right);
    result := Some(Rounded(Statistics(t, |package.items|)));
  }

  lemma DecidedPrefix(items: seq<Item>, found: map<string, Decision>, n: nat)
    requires Decided(items, found) && n <= |items|
    ensures Decided(items[..n], found)
    ensures forall i | 0 <= i < |items| :: items[i].id in found
  {
    forall i | 0 <= i < |items| ensures items[i].id in found {
      assert items[i] in items;
    }
  }

  // ---------------------------------------------------------------- what the statistics count

  lemma SetShares(left: set<string>, right: set<string>)
    ensures |left| + |right| == |left + right| + |left * right| && |left * right| <= |left + right|
    ensures |left * right| == |left + right| <==> left == right
    ensures |left * right| == 0 <==> forall x | x in left :: x !in right
  {
    SubsetCardinality(left * right, left + right);
    if |left * right| == |left + right| {
      assert left * right == left + right;
      assert forall x | x in left + right :: x in left * right;
    }
    if exists x | x in left :: x in right {
      var x :| x in left && x in right;
      assert x in left * right;
    } else {
      assert left * right == {};
    }
  }

  /** The share of the union that is common; one exactly for equal selections, zero exactly for disjoint ones. */
  lemma JaccardIs(left: set<string>, right: set<string>)
    ensures left + right != {} ==>
      Jaccard(left, right) * |left + right| as real == (|left| + |right| - |left + right|) as real
    ensures Jaccard(left, right) == 1.0 <==> left == right
    ensures Jaccard(left, right) == 0.0 <==> left + right != {} && forall x | x in left :: x !in right
  {
    SetShares(left, right);
    if left + right != {} {
      Rate(|left * right|, |left + right|);
      Scale(|left * right|, |left + right|);
    }
  }

  ghost function SameAnswers(items: seq<Item>, left: map<string, Decision>, right: map<string, Decision>): set<nat>
    requires Decided(items, left) && Decided(items, right)
  {
    set i: nat | i < |items| && left[items[i].id].answer == right[items[i].id].answer
  }

  /** The documents both selected, item by item. */
  ghost function CommonPicks(items: seq<Item>, left: map<string, Decision>, right: map<string, Decision>): set<(nat, string)>
    requires Decided(items, left) && Decided(items, right)
  {
    set i: nat, doc | 0 <= i < |items| && doc in left[items[i].id].relevant && doc in right[items[i].id].relevant :: (i, doc)
  }

  /** The ones both gave the same roles. */
  ghost function AgreedPicks(items: seq<Item>, left: map<string, Decision>, right: map<string, Decision>): set<(nat, string)>
    requires Decided(items, left) && Decided(items, right)
  {
    set pick | pick in CommonPicks(items, left, right) && SameRolesAt(items, left, right, pick)
  }

  ghost predicate SameRolesAt(items: seq<Item>, left: map<string, Decision>, right: map<string, Decision>, pick: (nat, string))
    requires Decided(items, left) && Decided(items, right)
  {
    && pick.0 < |items|
    && var l, r := left[items[pick.0].id], right[items[pick.0].id];
       pick.1 in l.roles && pick.1 in r.roles
       && forall role :: role in l.roles[pick.1] <==> role in r.roles[pick.1]
  }

  ghost function Tagged(i: nat, docs: set<string>): set<(nat, string)> {
    set doc | doc in docs :: (i, doc)
  }

  lemma TaggedMember(i: nat, docs: set<string>, pick: (nat, string))
    ensures pick in Tagged(i, docs) <==> pick.0 == i && pick.1 in docs
  {
  }

  lemma {:induction false} TaggedCount(i: nat, docs: set<string>)
    ensures |Tagged(i, docs)| == |docs|
    decreases docs
  {
    if docs != {} {
      var x :| x in docs;
      TaggedCount(i, docs - {x});
      assert Tagged(i, docs) == Tagged(i, docs - {x}) + {(i, x)};
    }
  }

  lemma SplitSize(all: set<(nat, string)>, before: set<(nat, string)>, here: set<(nat, string)>)
    requires forall pick :: pick in all <==> pick in before || pick in here
    requires before !! here
    ensures |all| == |before| + |here|
  {
    assert all == before + here;
  }

  lemma DecidedAt(items: seq<Item>, found: map<string, Decision>, i: nat)
    requires Decided(items, found) && i < |items|
    ensures items[i].id in found && found[items[i].id].roles.Keys == Members(found[items[i].id].relevant)
  {
    assert items[i] in items;
  }

  lemma AnswersStep(items: seq<Item>, left: map<string, Decision>, right: map<string, Decision>, n: nat)
    requires Decided(items, left) && Decided(items, right) && n == |items| - 1
    requires Decided(items[..n], left) && Decided(items[..n], right)
    ensures |SameAnswers(items, left, right)|
         == |SameAnswers(items[..n], left, right)| + if left[items[n].id].answer == right[items[n].id].answer then 1 else 0
  {
    DecidedAt(items, left, n);
    DecidedAt(items, right, n);
    assert SameAnswers(items, left, right)
        == SameAnswers(items[..n], left, right)
           + if left[items[n].id].answer == right[items[n].id].answer then {n} else {};
  }

  lemma PicksStep(items: seq<Item>, left: map<string, Decision>, right: map<string, Decision>, n: nat)
    requires Decided(items, left) && Decided(items, right) && n == |items| - 1
    requires Decided(items[..n], left) && Decided(items[..n], right)
    ensures items[n].id in left && items[n].id in right
    ensures |CommonPicks(items, left, right)|
         == |CommonPicks(items[..n], left, right)| + |Shared(left[items[n].id], right[items[n].id])|
  {
    DecidedAt(items, left, n);
    DecidedAt(items, right, n);
    var docs := Shared(left[items[n].id], right[items[n].id]);
    var all, before, here := CommonPicks(items, left, right), CommonPicks(items[..n], left, right), Tagged(n, docs);
    TaggedCount(n, docs);
    hide CommonPicks, Tagged, Shared, Decided;
    forall pick: (nat, string)
      ensures (pick in all <==> pick in before || pick in here) && (pick in before ==> pick !in here)
    {
      TaggedMember(n, docs, pick);
      PicksSplit(items, left, right, n, pick);
    }
    SplitSize(all, before, here);
  }

  lemma PicksSplit(items: seq<Item>, left: map<string, Decision>, right: map<string, Decision>, n: nat, pick: (nat, string))
    requires Decided(items, left) && Decided(items, right) && n == |items| - 1
    requires Decided(items[..n], left) && Decided(items[..n], right)
    ensures items[n].id in left && items[n].id in right
    ensures pick in CommonPicks(items[..n], left, right) ==> pick.0 < n
    ensures pick in CommonPicks(items, left, right) <==>
      pick in CommonPicks(items[..n], left, right)
      || (pick.0 == n && pick.1 in Shared(left[items[n].id], right[items[n].id]))
  {
    DecidedAt(items, left, n);
    DecidedAt(items, right, n);
    if pick.0 < n {
      assert items[..n][pick.0] == items[pick.0];
    }
  }

  lemma AgreedHere(items: seq<Item>, left: map<string, Decision>, right: map<string, Decision>, n: nat, doc: string)
    requires Decided(items, left) && Decided(items, right) && n < |items|
    ensures items[n].id in left && items[n].id in right
    ensures (n, doc) in AgreedPicks(items, left, right) <==> doc in SharedRoles(left[items[n].id], right[items[n].id])
  {
    DecidedAt(items, left, n);
    DecidedAt(items, right, n);
    var l, r := left[items[n].id], right[items[n].id];
    if doc in Shared(l, r) {
      assert doc in Members(l.relevant) && doc in Members(r.relevant);
      assert doc in l.roles && doc in r.roles;
      assert SameRoles(l, r, doc) <==> forall role :: role in l.roles[doc] <==> role in r.roles[doc] by {
        assert forall role :: role in Members(l.roles[doc]) <==> role in l.roles[doc];
        assert forall role :: role in Members(r.roles[doc]) <==> role in r.roles[doc];
      }
    }
  }

  lemma AgreedStep(items: seq<Item>, left: map<string, Decision>, right: map<string, Decision>, n: nat)
    requires Decided(items, left) && Decided(items, right) && n == |items| - 1
    requires Decided(items[..n], left) && Decided(items[..n], right)
    ensures items[n].id in left && items[n].id in right
    ensures |AgreedPicks(items, left, right)|
         == |AgreedPicks(items[..n], left, right)| + |SharedRoles(left[items[n].id], right[items[n].id])|
  {
    DecidedAt(items, left, n);
    DecidedAt(items, right, n);
    var docs := SharedRoles(left[items[n].id], right[items[n].id]);
    var all, before, here := AgreedPicks(items, left, right), AgreedPicks(items[..n], left, right), Tagged(n, docs);
    TaggedCount(n, docs);
    hide SharedRoles, AgreedPicks, Decided, Tagged;
    forall pick: (nat, string)
      ensures (pick in all <==> pick in before || pick in here) && (pick in before ==> pick !in here)
    {
      TaggedMember(n, docs, pick);
      AgreedSplit(items, left, right, n, pick);
    }
    SplitSize(all, before, here);
  }

  lemma AgreedSplit(items: seq<Item>, left: map<string, Decision>, right: map<string, Decision>, n: nat, pick: (nat, string))
    requires Decided(items, left) && Decided(items, right) && n == |items| - 1
    requires Decided(items[..n], left) && Decided(items[..n], right)
    ensures items[n].id in left && items[n].id in right
    ensures pick in AgreedPicks(items[..n], left, right) ==> pick.0 < n
    ensures pick in AgreedPicks(items, left, right) <==>
      pick in AgreedPicks(items[..n], left, right)
      || (pick.0 == n && pick.1 in SharedRoles(left[items[n].id], right[items[n].id]))
  {
    DecidedAt(items, left, n);
    DecidedAt(items, right, n);
    if pick.0 == n {
      AgreedHere(items, left, right, n, pick.1);
    } else if pick.0 < n {
      assert items[..n][pick.0] == items[pick.0];
    }
  }

  /** The tally counts equal answers, common picks, and common picks with equal roles. */
  lemma {:induction false} TallyCounts(items: seq<Item>, left: map<string, Decision>, right: map<string, Decision>)
    requires Decided(items, left) && Decided(items, right)
    ensures var t := TallyOf(items, left, right);
      && t.answerMatches == |SameAnswers(items, left, right)|
      && t.rolePairs == |CommonPicks(items, left, right)|
      && t.roleMatches == |AgreedPicks(items, left, right)|
  {
    hide TallyOf, Decided, Shared, SharedRoles, SameRolesAt;
    if items == [] {
      EmptyTally(items, left, right);
      assert items[..0] == items;
    } else {
      hide SameAnswers, CommonPicks, AgreedPicks;
      var n := |items| - 1;
      TallyStep(items, left, right, n);
      assert items[..n + 1] == items;
      TallyCounts(items[..n], left, right);
      AnswersStep(items, left, right, n);
      PicksStep(items, left, right, n);
      AgreedStep(items, left, right, n);
    }
  }

  /** An annotator's vote on each candidate of each item. */
  ghost function Ballots(items: seq<Item>, found: map<string, Decision>): seq<bool>
    requires Decided(items, found)
  {
    if items == [] then []
    else
      var init, item := items[..|items| - 1], items[|items| - 1];
      Ballots(init, found)
      + seq(|item.candidates|, i requires 0 <= i < |item.candidates| => item.candidates[i] in found[item.id].relevant)
  }

  /** The shares of common documents, added up over the items. */
  ghost function ShareSum(items: seq<Item>, left: map<string, Decision>, right: map<string, Decision>): real
    requires Decided(items, left) && Decided(items, right)
  {
    if items == [] then 0.0
    else
      var init, id := items[..|items| - 1], items[|items| - 1].id;
      ShareSum(init, left, right) + Jaccard(Members(left[id].relevant), Members(right[id].relevant))
  }

  /** They differ in the documents, in some document's list of roles, or in the answer. */
  ghost predicate Disagree(l: Decision, r: Decision) {
    (exists doc :: doc in l.relevant && doc !in r.relevant) || (exists doc :: doc in r.relevant && doc !in l.relevant)
    || l.roles != r.roles || l.answer != r.answer
  }

  /** What a comparison of the decisions has to report. */
  ghost predicate Reports(items: seq<Item>, left: map<string, Decision>, right: map<string, Decision>, c: Comparison)
    requires Decided(items, left) && Decided(items, right) && items != []
  {
    var n, common := |items| as real, |CommonPicks(items, left, right)|;
    && c.kappa == Round4(Kappa(Ballots(items, left), Ballots(items, right)))
    && c.jaccard == Round4(ShareSum(items, left, right) / n)
    && c.roleAgreement == Round4(if common == 0 then 1.0 else |AgreedPicks(items, left, right)| as real / common as real)
    && c.answerAgreement == Round4(|SameAnswers(items, left, right)| as real / n)
    && forall item | item in items :: item.id in c.disagreements <==> Disagree(left[item.id], right[item.id])
  }

  lemma {:induction false} TallyGathers(items: seq<Item>, left: map<string, Decision>, right: map<string, Decision>)
    requires Decided(items, left) && Decided(items, right)
    ensures var t := TallyOf(items, left, right);
      t.first == Ballots(items, left) && t.second == Ballots(items, right) && t.jaccards == ShareSum(items, left, right)
  {
    hide Jaccard, Agree, Shared, SharedRoles, Decided;
    if items == [] {
      EmptyTally(items, left, right);
      assert items[..0] == items;
    } else {
      var n := |items| - 1;
      TallyStep(items, left, right, n);
      assert items[..n + 1] == items;
      TallyGathers(items[..n], left, right);
    }
  }

  lemma DisagreeIff(l: Decision, r: Decision)
    ensures Disagree(l, r) <==> !Agree(l, r)
  {
    assert forall doc :: doc in Members(l.relevant) <==> doc in l.relevant;
    assert forall doc :: doc in Members(r.relevant) <==> doc in r.relevant;
  }

  lemma {:induction false} DisagreementsAre(items: seq<Item>, left: map<string, Decision>, right: map<string, Decision>,
                                            id: string)
    requires Decided(items, left) && Decided(items, right)
    ensures id in TallyOf(items, left, right).disagreements <==>
      exists item :: item in items && item.id == id && Disagree(left[id], right[id])
  {
    hide TallyOf, Agree, Disagree, Decided;
    if items == [] {
      EmptyTally(items, left, right);
      assert items[..0] == items;
    } else {
      var n := |items| - 1;
      TallyStep(items, left, right, n);
      assert items[..n + 1] == items && items == items[..n] + [items[n]];
      DisagreementsAre(items[..n], left, right, id);
      DisagreeIff(left[items[n].id], right[items[n].id]);
      AddedDisagreement(TallyOf(items[..n], left, right), items[n], left[items[n].id], right[items[n].id]);
    }
  }

  lemma AddedDisagreement(t: Tally, item: Item, l: Decision, r: Decision)
    ensures AddItem(t, item, l, r).disagreements == if Agree(l, r) then t.disagreements else t.disagreements + [item.id]
  {
    hide Agree, Jaccard, Shared, SharedRoles, VotesOn;
  }

  /** The rounded statistics of the tally are the four measures of the decisions, each in its place, and the items
      listed are those on which the decisions differ. */
  lemma ReportIs(items: seq<Item>, left: map<string, Decision>, right: map<string, Decision>)
    requires Decided(items, left) && Decided(items, right) && items != []
    ensures Reports(items, left, right, Rounded(Statistics(TallyOf(items, left, right), |items|)))
  {
    hide TallyOf, Kappa, Ballots, ShareSum, CommonPicks, AgreedPicks, SameAnswers, Disagree, Decided, Round4;
    TallyGathers(items, left, right);
    TallyCounts(items, left, right);
    forall item | item in items
      ensures item.id in left && item.id in right
      ensures item.id in TallyOf(items, left, right).disagreements <==> Disagree(left[item.id], right[item.id])
    {
      var i :| 0 <= i < |items| && items[i] == item;
      DecidedAt(items, left, i);
      DecidedAt(items, right, i);
      DisagreementsAre(items, left, right, item.id);
    }
  }

  // ---------------------------------------------------------------- what perfect statistics mean

  ghost predicate AllAgree(items: seq<Item>, left: map<string, Decision>, right: map<string, Decision>)
    requires Decided(items, left) && Decided(items, right)
  {
    forall item | item in items :: AgreeInSubstance(left[item.id], right[item.id])
  }

  /** One item: each of the four measures is perfect, or the decisions differ in substance. */
  lemma ItemMeasures(item: Item, l: Decision, r: Decision)
    requires forall doc | doc in l.relevant || doc in r.relevant :: doc in item.candidates
    ensures VotesOn(item, l) == VotesOn(item, r) <==> Members(l.relevant) == Members(r.relevant)
    ensures Jaccard(Members(l.relevant), Members(r.relevant)) <= 1.0
    ensures Members(l.relevant) == Members(r.relevant) ==> Jaccard(Members(l.relevant), Members(r.relevant)) == 1.0
    ensures |SharedRoles(l, r)| <= |Shared(l, r)|
    ensures |SharedRoles(l, r)| == |Shared(l, r)| <==> forall doc | doc in Shared(l, r) :: SameRoles(l, r, doc)
  {
    SameVotesIff(item, l, r);
    SameRolesIff(l, r);
    hide VotesOn, SharedRoles;
    var a, b := Members(l.relevant), Members(r.relevant);
    SubsetCardinality(a * b, a + b);
    if a + b != {} {
      Quotient(|a * b| as real, |a + b| as real);
    }
    if a == b {
      assert a * b == a + b;
    }
  }

  lemma SameRolesIff(l: Decision, r: Decision)
    ensures |SharedRoles(l, r)| <= |Shared(l, r)|
    ensures |SharedRoles(l, r)| == |Shared(l, r)| <==> forall doc | doc in Shared(l, r) :: SameRoles(l, r, doc)
  {
    hide Shared, SameRoles;
    SubsetCardinality(SharedRoles(l, r), Shared(l, r));
    if forall doc | doc in Shared(l, r) :: SameRoles(l, r, doc) {
      assert SharedRoles(l, r) == Shared(l, r);
    }
  }

  lemma SameVotesIff(item: Item, l: Decision, r: Decision)
    requires forall doc | doc in l.relevant || doc in r.relevant :: doc in item.candidates
    ensures VotesOn(item, l) == VotesOn(item, r) <==> Members(l.relevant) == Members(r.relevant)
  {
    var a, b := Members(l.relevant), Members(r.relevant);
    assert forall i | 0 <= i < |item.candidates| :: VotesOn(item, l)[i] <==> item.candidates[i] in a;
    assert forall i | 0 <= i < |item.candidates| :: VotesOn(item, r)[i] <==> item.candidates[i] in b;
    if VotesOn(item, l) == VotesOn(item, r) {
      forall doc | doc in item.candidates ensures doc in a <==> doc in b {
        var i :| 0 <= i < |item.candidates| && item.candidates[i] == doc;
        assert VotesOn(item, l)[i] == VotesOn(item, r)[i];
      }
    }
  }

  predicate Perfect(t: Tally, n: nat) {
    t.first == t.second && t.jaccards == n as real && t.rolePairs == t.roleMatches && t.answerMatches == n
  }

  predicate Bounded(t: Tally, n: nat) {
    && |t.first| == |t.second| && t.jaccards <= n as real
    && t.roleMatches <= t.rolePairs && t.answerMatches <= n
  }

  lemma PerfectStep(t: Tally, n: nat, item: Item, l: Decision, r: Decision)
    requires Bounded(t, n)
    requires forall doc | doc in l.relevant || doc in r.relevant :: doc in item.candidates
    ensures Bounded(AddItem(t, item, l, r), n + 1)
    ensures Perfect(AddItem(t, item, l, r), n + 1) <==> Perfect(t, n) && AgreeInSubstance(l, r)
  {
    hide Shared, SharedRoles, SameRoles, VotesOn, Jaccard, Members;
    ItemMeasures(item, l, r);
    VotesLength(item, l);
    VotesLength(item, r);
    SameParts(t.first, VotesOn(item, l), t.second, VotesOn(item, r));
  }

  lemma VotesLength(item: Item, d: Decision)
    ensures |VotesOn(item, d)| == |item.candidates|
  {
  }

  lemma SameParts(a: seq<bool>, x: seq<bool>, b: seq<bool>, y: seq<bool>)
    requires |a| == |b|
    ensures a + x == b + y <==> a == b && x == y
  {
    assert a == (a + x)[..|a|] && b == (b + y)[..|b|];
    assert x == (a + x)[|a|..] && y == (b + y)[|b|..];
  }

  lemma SelectsCandidates(items: seq<Item>, found: map<string, Decision>, item: Item)
    requires Decided(items, found) && item in items
    ensures item.id in found && forall doc | doc in found[item.id].relevant :: doc in item.candidates
  {
  }

  lemma AgreeIsStronger(l: Decision, r: Decision)
    ensures Agree(l, r) ==> AgreeInSubstance(l, r)
  {
  }

  lemma {:induction false} TallyIsPerfect(items: seq<Item>, left: map<string, Decision>, right: map<string, Decision>)
    requires Decided(items, left) && Decided(items, right)
    ensures Bounded(TallyOf(items, left, right), |items|)
    ensures Perfect(TallyOf(items, left, right), |items|) <==> AllAgree(items, left, right)
    ensures TallyOf(items, left, right).disagreements == [] ==> AllAgree(items, left, right)
  {
    hide TallyOf, Decided, AgreeInSubstance, Agree;
    if items == [] {
      EmptyTally(items, left, right);
      assert items[..0] == items;
    } else {
      var n := |items| - 1;
      TallyStep(items, left, right, n);
      assert items[..n + 1] == items;
      TallyIsPerfect(items[..n], left, right);
      assert items == items[..n] + [items[n]];
      var l, r := left[items[n].id], right[items[n].id];
      SelectsCandidates(items, left, items[n]);
      SelectsCandidates(items, right, items[n]);
      PerfectStep(TallyOf(items[..n], left, right), n, items[n], l, r);
      AgreeIsStronger(l, r);
    }
  }

  lemma {:induction false} SomeVotes(items: seq<Item>, left: map<string, Decision>, right: map<string, Decision>)
    requires Decided(items, left) && Decided(items, right)
    requires items != [] && forall item | item in items :: item.candidates != []
    ensures TallyOf(items, left, right).first != []
  {
    TallyStep(items, left, right, |items| - 1);
    assert items[..|items|] == items && items[|items| - 1] in items;
    VotesLength(items[|items| - 1], left[items[|items| - 1].id]);
  }

  /** All four statistics are exactly 1 if and only if the annotators agree on every item, up to the
      order in which they listed the roles of a document. */
  lemma PerfectStatisticsIff(items: seq<Item>, left: map<string, Decision>, right: map<string, Decision>)
    requires Decided(items, left) && Decided(items, right)
    requires items != [] && forall item | item in items :: item.candidates != []
    ensures var c := Statistics(TallyOf(items, left, right), |items|);
      c.kappa == 1.0 && c.jaccard == 1.0 && c.roleAgreement == 1.0 && c.answerAgreement == 1.0
      <==> AllAgree(items, left, right)
  {
    hide TallyOf, Kappa;
    TallyIsPerfect(items, left, right);
    SomeVotes(items, left, right);
    var t := TallyOf(items, left, right);
    KappaBounds(t.first, t.second);
    Quotient(t.jaccards, |items| as real);
    Rate(t.answerMatches, |items|);
    if t.rolePairs > 0 {
      Rate(t.roleMatches, t.rolePairs);
    }
  }

  /** A comparison without disagreements reports four times exactly 1. */
  lemma NoDisagreementIsPerfect(items: seq<Item>, left: map<string, Decision>, right: map<string, Decision>)
    requires Decided(items, left) && Decided(items, right)
    requires items != [] && forall item | item in items :: item.candidates != []
    ensures var c := Rounded(Statistics(TallyOf(items, left, right), |items|));
      c.disagreements == [] ==> c == Comparison(1.0, 1.0, 1.0, 1.0, [])
  {
    hide TallyOf, Kappa, AllAgree;
    TallyIsPerfect(items, left, right);
    PerfectStatisticsIff(items, left, right);
  }

  /** Where both give a document the same roles, they list them in the same order. */
  predicate SameOrder(left: Decision, right: Decision) {
    forall doc | doc in Shared(left, right) && SameRoles(left, right, doc) :: RolesOf(left, doc) == RolesOf(right, doc)
  }

  ghost predicate AllInOrder(items: seq<Item>, left: map<string, Decision>, right: map<string, Decision>)
    requires Decided(items, left) && Decided(items, right)
  {
    forall item | item in items :: SameOrder(left[item.id], right[item.id])
  }

  lemma AgreeIff(l: Decision, r: Decision)
    requires l.roles.Keys == Members(l.relevant) && r.roles.Keys == Members(r.relevant)
    ensures Agree(l, r) <==> AgreeInSubstance(l, r) && SameOrder(l, r)
  {
    if AgreeInSubstance(l, r) && SameOrder(l, r) {
      forall doc ensures doc in l.roles <==> doc in r.roles {
        assert doc in l.roles <==> doc in Members(l.relevant);
        assert doc in r.roles <==> doc in Members(r.relevant);
      }
      forall doc | doc in l.roles ensures l.roles[doc] == r.roles[doc] {
        assert doc in Shared(l, r) && SameRoles(l, r, doc);
        assert RolesOf(l, doc) == l.roles[doc] && RolesOf(r, doc) == r.roles[doc];
      }
      assert l.roles == r.roles;
    }
  }

  /** No disagreement is reported if and only if the annotators agree on every item and list the roles of
      every document in the same order. */
  lemma {:induction false} NoDisagreementIff(items: seq<Item>, left: map<string, Decision>, right: map<string, Decision>)
    requires Decided(items, left) && Decided(items, right)
    ensures TallyOf(items, left, right).disagreements == [] <==>
      AllAgree(items, left, right) && AllInOrder(items, left, right)
  {
    hide TallyOf, AgreeInSubstance, Agree, SameOrder;
    if items == [] {
      EmptyTally(items, left, right);
      assert items[..0] == items;
    } else {
      var n := |items| - 1;
      TallyStep(items, left, right, n);
      assert items[..n + 1] == items && items == items[..n] + [items[n]];
      NoDisagreementIff(items[..n], left, right);
      AgreeIff(left[items[n].id], right[items[n].id]);
    }
  }

  // ---------------------------------------------------------------- perfect statistics and a disagreement

  function TwoRoles(doc: string, roles: seq<string>): Decision {
    Decision("item", [doc], map[doc := roles], "", true)
  }

  function SoleDecision(annotator: string, d: Decision): Submission {
    Submission("package", annotator, true, [d])
  }

  /** One item with one candidate, and a schema with two roles. */
  function SolePackage(doc: string, a: string, b: string): Package {
    Package("package", [Item("item", [doc])], {a, b})
  }

  lemma SoleAccepted(doc: string, a: string, b: string, annotator: string, roles: seq<string>)
    requires roles == [a, b] || roles == [b, a]
    ensures Accepted(SolePackage(doc, a, b), SoleDecision(annotator, TwoRoles(doc, roles)))
    ensures DecisionById([TwoRoles(doc, roles)]) == map["item" := TwoRoles(doc, roles)]
  {
    var package, d := SolePackage(doc, a, b), TwoRoles(doc, roles);
    assert [Item("item", [doc])][..0] == [] && [d][..0] == [];
    assert ItemById(package.items) == map["item" := Item("item", [doc])];
    assert Members(d.relevant) == {doc};
    assert DecisionAccepted(package, d);
  }

  /** Two accepted submissions that list the same two roles in different order get four times exactly 1 and
      one disagreement. */
  lemma RoleOrderIsReported(doc: string, a: string, b: string, one: string, two: string)
    requires a != b && one != two
    ensures var package := SolePackage(doc, a, b);
      var first, second := SoleDecision(one, TwoRoles(doc, [a, b])), SoleDecision(two, TwoRoles(doc, [b, a]));
      && Accepted(package, first) && Accepted(package, second) && first.annotator != second.annotator
      && Decided(package.items, DecisionById(first.decisions)) && Decided(package.items, DecisionById(second.decisions))
      && Rounded(Statistics(TallyOf(package.items, DecisionById(first.decisions), DecisionById(second.decisions)), 1))
         == Comparison(1.0, 1.0, 1.0, 1.0, ["item"])
  {
    hide Accepted, DecisionById, TallyOf, Statistics, Rounded, AddItem, Agree, AgreeInSubstance;
    var package := SolePackage(doc, a, b);
    var l, r := TwoRoles(doc, [a, b]), TwoRoles(doc, [b, a]);
    SoleAccepted(doc, a, b, one, [a, b]);
    SoleAccepted(doc, a, b, two, [b, a]);
    LookupIsTotal(package, SoleDecision(one, l));
    LookupIsTotal(package, SoleDecision(two, r));
    OrderDiffers(doc, a, b);
    SoleTally(Item("item", [doc]), map["item" := l], map["item" := r]);
  }

  /** The comparison of one item on which the annotators agree in substance but not to the letter. */
  lemma SoleTally(item: Item, left: map<string, Decision>, right: map<string, Decision>)
    requires Decided([item], left) && Decided([item], right) && item.candidates != []
    requires item.id in left && item.id in right
    requires AgreeInSubstance(left[item.id], right[item.id]) && !Agree(left[item.id], right[item.id])
    ensures Rounded(Statistics(TallyOf([item], left, right), 1)) == Comparison(1.0, 1.0, 1.0, 1.0, [item.id])
  {
    hide TallyOf, Statistics, AddItem, Agree, AgreeInSubstance, Decided;
    PerfectStatisticsIff([item], left, right);
    TallyStep([item], left, right, 0);
    assert [item][..1] == [item] && [item][..0] == [];
    EmptyTally([item], left, right);
    OneDisagreement(item, left[item.id], right[item.id]);
    StatisticsKeepsDisagreements(TallyOf([item], left, right), 1);
  }

  lemma OrderDiffers(doc: string, a: string, b: string)
    requires a != b
    ensures var l, r := TwoRoles(doc, [a, b]), TwoRoles(doc, [b, a]);
      AgreeInSubstance(l, r) && !Agree(l, r)
  {
    var l, r := TwoRoles(doc, [a, b]), TwoRoles(doc, [b, a]);
    assert Members([a, b]) == Members([b, a]);
    assert l.roles[doc][0] != r.roles[doc][0];
    assert forall d | d in Shared(l, r) :: d == doc;
  }

  lemma OneDisagreement(item: Item, l: Decision, r: Decision)
    requires !Agree(l, r)
    ensures AddItem(Tally([], [], 0.0, 0, 0, 0, []), item, l, r).disagreements == [item.id]
  {
  }

  lemma StatisticsKeepsDisagreements(t: Tally, n: nat)
    requires n > 0
    ensures Rounded(Statistics(t, n)).disagreements == t.disagreements
    ensures Statistics(t, n) == Comparison(1.0, 1.0, 1.0, 1.0, t.disagreements) ==>
      Rounded(Statistics(t, n)) == Comparison(1.0, 1.0, 1.0, 1.0, t.disagreements)
    ensures Statistics(t, n).disagreements == t.disagreements
  {
  }
}
