/** The builder of composite housing cases (flood_system/frc_housing_ablation.py).

    Each case gathers F questions of one state with distinct question groups and statutes, a hard
    negative from another state for each of them, and D distractors from the same state. */
module CaseBuilder {
  import opened Ordering

  datatype Record = Record(idx: int, state: string, group: int, statute: int, yes: bool)

  datatype Origin = Gold | WrongState | SameState

  datatype Candidate = Candidate(record: Record, origins: set<Origin>)

  datatype Case = Case(state: string, targets: seq<Record>, candidates: map<int, Candidate>)

  /** The sort keys: stable hashes, lexical overlap and record numbers in the original. */
  datatype Orders = Orders(
    stateKey: string -> int,
    targetKey: (nat, string, Record) -> int,
    negativeKey: (nat, Record, Record) -> int,
    distractorKey: (nat, seq<Record>, Record) -> int)

  // ---------------------------------------------------------------- sorting and sets of numbers

  function Insert(key: Record -> int, r: Record, sorted: seq<Record>): seq<Record> {
    if sorted == [] || key(r) < key(sorted[0]) then [r] + sorted
    else [sorted[0]] + Insert(key, r, sorted[1..])
  }

  function SortBy(key: Record -> int, rs: seq<Record>): seq<Record> {
    if rs == [] then [] else Insert(key, rs[|rs| - 1], SortBy(key, rs[..|rs| - 1]))
  }

  lemma {:induction false} InsertMember(key: Record -> int, r: Record, sorted: seq<Record>, x: Record)
    ensures x in Insert(key, r, sorted) <==> x == r || x in sorted
  {
    if sorted != [] && key(r) >= key(sorted[0]) {
      InsertMember(key, r, sorted[1..], x);
    }
  }

  lemma {:induction false} SortMember(key: Record -> int, rs: seq<Record>, x: Record)
    ensures x in SortBy(key, rs) <==> x in rs
  {
    if rs != [] {
      var init, last := rs[..|rs| - 1], rs[|rs| - 1];
      SortMember(key, init, x);
      InsertMember(key, last, SortBy(key, init), x);
      assert rs == init + [last];
    }
  }

  function Groups(rs: seq<Record>): set<int> {
    if rs == [] then {} else Groups(rs[..|rs| - 1]) + {rs[|rs| - 1].group}
  }

  function Statutes(rs: seq<Record>): set<int> {
    if rs == [] then {} else Statutes(rs[..|rs| - 1]) + {rs[|rs| - 1].statute}
  }

  predicate DistinctGroups(rs: seq<Record>) {
    forall i, j | 0 <= i < j < |rs| :: rs[i].group != rs[j].group
  }

  predicate DistinctStatutes(rs: seq<Record>) {
    forall i, j | 0 <= i < j < |rs| :: rs[i].statute != rs[j].statute
  }

  lemma {:induction false} DistinctStatutesCount(rs: seq<Record>)
    requires DistinctStatutes(rs)
    ensures |Statutes(rs)| == |rs|
  {
    if rs != [] {
      var init, last := rs[..|rs| - 1], rs[|rs| - 1];
      DistinctStatutesCount(init);
      if last.statute in Statutes(init) {
        var r := StatuteOwner(init, last.statute);
      }
    }
  }

  lemma Append(rs: seq<Record>, r: Record)
    ensures Groups(rs + [r]) == Groups(rs) + {r.group} && Statutes(rs + [r]) == Statutes(rs) + {r.statute}
    ensures DistinctGroups(rs) && r.group !in Groups(rs) ==> DistinctGroups(rs + [r])
    ensures DistinctStatutes(rs) && r.statute !in Statutes(rs) ==> DistinctStatutes(rs + [r])
  {
    AppendSets(rs, r);
    hide Groups, Statutes;
    forall i | 0 <= i < |rs| ensures rs[i].group in Groups(rs) && rs[i].statute in Statutes(rs) {
      MemberSets(rs, rs[i]);
    }
  }

  lemma AppendSets(rs: seq<Record>, r: Record)
    ensures Groups(rs + [r]) == Groups(rs) + {r.group} && Statutes(rs + [r]) == Statutes(rs) + {r.statute}
  {
    assert (rs + [r])[..|rs|] == rs;
  }

  lemma {:induction false} MemberSets(rs: seq<Record>, r: Record)
    requires r in rs
    ensures r.group in Groups(rs) && r.statute in Statutes(rs)
  {
    var init := rs[..|rs| - 1];
    if r in init {
      MemberSets(init, r);
    }
  }

  /** Every statute of the set belongs to some record. */
  lemma {:induction false} StatuteOwner(rs: seq<Record>, statute: int) returns (r: Record)
    requires statute in Statutes(rs)
    ensures r in rs && r.statute == statute
  {
    r := rs[|rs| - 1];
    if r.statute != statute {
      r := StatuteOwner(rs[..|rs| - 1], statute);
    }
  }

  lemma {:induction false} JoinSets(a: seq<Record>, b: seq<Record>)
    ensures Statutes(a + b) == Statutes(a) + Statutes(b)
  {
    if b == [] {
      assert a + b == a;
    } else {
      JoinSets(a, b[..|b| - 1]);
      assert (a + b)[..|a + b| - 1] == a + b[..|b| - 1];
    }
  }

  lemma JoinDistinct(a: seq<Record>, b: seq<Record>)
    requires DistinctStatutes(a) && DistinctStatutes(b) && Statutes(a) !! Statutes(b)
    ensures DistinctStatutes(a + b) && Statutes(a + b) == Statutes(a) + Statutes(b)
  {
    JoinSets(a, b);
    forall i, j | 0 <= i < j < |a + b| ensures (a + b)[i].statute != (a + b)[j].statute {
      if i < |a| <= j {
        MemberSets(a, a[i]);
        MemberSets(b, b[j - |a|]);
      }
    }
  }

  // ---------------------------------------------------------------- the candidate pool

  datatype Entry = Entry(record: Record, origin: Origin)

  /** Adds a candidate, or merges its origin into the one with the same id. */
  function Merge(candidates: map<int, Candidate>, e: Entry): map<int, Candidate> {
    var id := e.record.statute;
    if id in candidates
    then candidates[id := candidates[id].(origins := candidates[id].origins + {e.origin})]
    else candidates[id := Candidate(e.record, {e.origin})]
  }

  function Collect(entries: seq<Entry>): map<int, Candidate> {
    if entries == [] then map[] else Merge(Collect(entries[..|entries| - 1]), entries[|entries| - 1])
  }

  /** A candidate has the record that was entered first under its id, and the origins of all entries under it. */
  lemma {:induction false} CollectUnites(entries: seq<Entry>, id: int)
    ensures id in Collect(entries) <==> exists e :: e in entries && e.record.statute == id
    ensures id in Collect(entries) ==>
      Collect(entries)[id].origins == set e | e in entries && e.record.statute == id :: e.origin
    ensures id in Collect(entries) ==> FirstUnder(entries, id, Collect(entries)[id].record)
  {
    hide FirstUnder;
    if entries != [] {
      var init, last := entries[..|entries| - 1], entries[|entries| - 1];
      CollectUnites(init, id);
      assert entries == init + [last];
      StillFirst(init, last, id);
    }
  }

  ghost predicate FirstUnder(entries: seq<Entry>, id: int, r: Record) {
    exists i: nat :: i < |entries| && entries[i].record == r && r.statute == id
      && forall j: nat | j < i :: entries[j].record.statute != id
  }

  lemma StillFirst(init: seq<Entry>, last: Entry, id: int)
    ensures forall r | FirstUnder(init, id, r) :: FirstUnder(init + [last], id, r)
    ensures last.record.statute == id && (forall e | e in init :: e.record.statute != id) ==>
      FirstUnder(init + [last], id, last.record)
  {
    var entries := init + [last];
    assert entries[|init|] == last;
    assert forall j: nat | j < |init| :: entries[j] == init[j];
    forall r | FirstUnder(init, id, r) ensures FirstUnder(entries, id, r) {
      var i: nat :| i < |init| && init[i].record == r && r.statute == id
        && forall j: nat | j < i :: init[j].record.statute != id;
      assert entries[i].record == r;
    }
  }

  /** Gold and hard negative of each field in turn. */
  function FieldEntries(targets: seq<Record>, negatives: seq<Record>): seq<Entry>
    requires |targets| == |negatives|
  {
    if targets == [] then []
    else
      var n := |targets| - 1;
      FieldEntries(targets[..n], negatives[..n]) + [Entry(targets[n], Gold), Entry(negatives[n], WrongState)]
  }

  /** Everything a case merges into its dictionary, in order. */
  function Entries(targets: seq<Record>, negatives: seq<Record>, distractors: seq<Record>): seq<Entry>
    requires |targets| == |negatives|
  {
    FieldEntries(targets, negatives)
    + seq(|distractors|, i requires 0 <= i < |distractors| => Entry(distractors[i], SameState))
  }

  function RecordsOf(entries: seq<Entry>): seq<Record> {
    seq(|entries|, i requires 0 <= i < |entries| => entries[i].record)
  }

  predicate DistinctEntries(entries: seq<Entry>) {
    forall i, j | 0 <= i < j < |entries| :: entries[i].record.statute != entries[j].record.statute
  }

  lemma DistinctRecordsDistinctEntries(entries: seq<Entry>)
    requires DistinctStatutes(RecordsOf(entries))
    ensures DistinctEntries(entries)
  {
    assert forall i | 0 <= i < |entries| :: RecordsOf(entries)[i] == entries[i].record;
  }

  /** With distinct statutes nothing is ever merged: each entry stands for itself. */
  lemma {:induction false} DistinctEntriesNeverMerge(entries: seq<Entry>)
    requires DistinctEntries(entries)
    ensures forall e | e in entries :: e.record.statute in Collect(entries)
              && Collect(entries)[e.record.statute] == Candidate(e.record, {e.origin})
    ensures forall id | id in Collect(entries) :: exists e :: e in entries && e.record.statute == id
    ensures |Collect(entries)| == |entries|
  {
    if entries != [] {
      var init, last := entries[..|entries| - 1], entries[|entries| - 1];
      DistinctEntriesNeverMerge(init);
      assert entries == init + [last];
      assert last.record.statute !in Collect(init);
    }
  }

  // ---------------------------------------------------------------- the three kinds of candidates

  /** Records of the same question group in another state with the opposite answer. */
  function Opposites(records: seq<Record>, r: Record): seq<Record> {
    if records == [] then []
    else
      var last := records[|records| - 1];
      Opposites(records[..|records| - 1], r)
      + if IsOpposite(r, last) then [last] else []
  }

  predicate IsOpposite(r: Record, other: Record) {
    other.group == r.group && other.state != r.state && other.yes != r.yes
  }

  lemma {:induction false} OppositesMember(records: seq<Record>, r: Record, x: Record)
    ensures x in Opposites(records, r) <==> x in records && IsOpposite(r, x)
  {
    if records != [] {
      OppositesMember(records[..|records| - 1], r, x);
      assert records == records[..|records| - 1] + [records[|records| - 1]];
    }
  }

  lemma NoRecords()
    ensures Groups([]) == {} && Statutes([]) == {} && DistinctGroups([]) && DistinctStatutes([])
  {
  }

  predicate Clashes(r: Record, previously: set<int>, targets: seq<Record>) {
    r.group in previously || r.group in Groups(targets) || r.statute in Statutes(targets)
  }

  /** In rank order, every record that clashes with nothing picked before it, until there are enough. */
  function FirstTargets(ranked: seq<Record>, previously: set<int>, fields: nat): seq<Record> {
    if ranked == [] then []
    else
      var front, last := FirstTargets(ranked[..|ranked| - 1], previously, fields), ranked[|ranked| - 1];
      if |front| == fields || Clashes(last, previously, front) then front else front + [last]
  }

  lemma {:induction false} EnoughTargets(ranked: seq<Record>, previously: set<int>, fields: nat, i: nat)
    requires i <= |ranked| && |FirstTargets(ranked[..i], previously, fields)| == fields
    ensures FirstTargets(ranked, previously, fields) == FirstTargets(ranked[..i], previously, fields)
  {
    hide Clashes;
    if i < |ranked| {
      var front := ranked[..|ranked| - 1];
      assert front[..i] == ranked[..i];
      EnoughTargets(front, previously, fields, i);
    } else {
      assert ranked[..i] == ranked;
    }
  }

  lemma OneMoreTarget(ranked: seq<Record>, previously: set<int>, fields: nat, i: nat)
    requires i < |ranked|
    ensures var front := FirstTargets(ranked[..i], previously, fields);
      FirstTargets(ranked[..i + 1], previously, fields)
      == if |front| == fields || Clashes(ranked[i], previously, front) then front else front + [ranked[i]]
  {
    assert ranked[..i + 1][..i] == ranked[..i];
  }

  method PickTargets(ranked: seq<Record>, previously: set<int>, fields: nat) returns (targets: seq<Record>)
    requires fields >= 1
    ensures targets == FirstTargets(ranked, previously, fields)
  {
    hide FirstTargets, Clashes;
    targets := [];
    assert FirstTargets(ranked[..0], previously, fields) == [] by {
      NoTargets(ranked[..0], previously, fields);
    }
    for i := 0 to |ranked|
      invariant targets == FirstTargets(ranked[..i], previously, fields) && |targets| < fields
    {
      OneMoreTarget(ranked, previously, fields, i);
      if Clashes(ranked[i], previously, targets) {
        continue;
      }
      targets := targets + [ranked[i]];
      if |targets| == fields {
        EnoughTargets(ranked, previously, fields, i + 1);
        return;
      }
    }
    assert ranked[..|ranked|] == ranked;
  }

  lemma NoTargets(ranked: seq<Record>, previously: set<int>, fields: nat)
    ensures ranked == [] ==> FirstTargets(ranked, previously, fields) == []
  {
  }

  /** The targets of a case have distinct unused groups and distinct statutes; when there are too few,
      every other record clashes. */
  lemma {:induction false} TargetsAreDistinct(ranked: seq<Record>, previously: set<int>, fields: nat)
    ensures var targets := FirstTargets(ranked, previously, fields);
      && |targets| <= fields && (forall r | r in targets :: r in ranked)
      && DistinctGroups(targets) && DistinctStatutes(targets) && Groups(targets) !! previously
      && (|targets| < fields ==> forall r | r in ranked :: Clashes(r, previously, targets))
  {
    hide Groups, Statutes, DistinctGroups, DistinctStatutes;
    NoRecords();
    if ranked != [] {
      var init, last := ranked[..|ranked| - 1], ranked[|ranked| - 1];
      TargetsAreDistinct(init, previously, fields);
      assert ranked == init + [last];
      Append(FirstTargets(init, previously, fields), last);
    }
  }

  /** The first record with a statute that is not used yet. */
  function NextUnused(ranked: seq<Record>, used: set<int>): Option<Record> {
    if ranked == [] then None
    else if ranked[0].statute !in used then Some(ranked[0])
    else NextUnused(ranked[1..], used)
  }

  function RankedOpposites(records: seq<Record>, r: Record, key: (Record, Record) -> int): seq<Record> {
    SortBy(x => key(r, x), Opposites(records, r))
  }

  /** Target by target, the best ranked opposite whose statute no target and no earlier negative has. */
  function FirstNegatives(records: seq<Record>, targets: seq<Record>, own: set<int>, key: (Record, Record) -> int)
    : Option<seq<Record>>
  {
    if targets == [] then Some([])
    else
      var front, last := FirstNegatives(records, targets[..|targets| - 1], own, key), targets[|targets| - 1];
      if front.None? then None
      else
        var next := NextUnused(RankedOpposites(records, last, key), own + Statutes(front.value));
        if next.None? then None else Some(front.value + [next.value])
  }

  lemma {:induction false} NoNegative(records: seq<Record>, targets: seq<Record>, own: set<int>,
                                      key: (Record, Record) -> int, i: nat)
    requires i <= |targets| && FirstNegatives(records, targets[..i], own, key).None?
    ensures FirstNegatives(records, targets, own, key).None?
  {
    hide RankedOpposites, NextUnused;
    if i < |targets| {
      var front := targets[..|targets| - 1];
      assert front[..i] == targets[..i];
      NoNegative(records, front, own, key, i);
    } else {
      assert targets[..i] == targets;
    }
  }

  /** One hard negative per target, with statutes not used before; none if some target has none left. */
  method PickNegatives(records: seq<Record>, targets: seq<Record>, key: (Record, Record) -> int)
    returns (negatives: Option<seq<Record>>)
    ensures negatives == FirstNegatives(records, targets, Statutes(targets), key)
    ensures negatives.Some? ==>
      && |negatives.value| == |targets|
      && (forall i | 0 <= i < |targets| :: negatives.value[i] in records && IsOpposite(targets[i], negatives.value[i]))
      && DistinctStatutes(negatives.value) && Statutes(negatives.value) !! Statutes(targets)
  {
    var used := Statutes(targets);
    NoRecords();
    hide Groups, Statutes, DistinctStatutes, IsOpposite, SortBy, Opposites, NextUnused;
    var picked: seq<Record> := [];
    for i := 0 to |targets|
      invariant |picked| == i && used == Statutes(targets) + Statutes(picked)
      invariant FirstNegatives(records, targets[..i], Statutes(targets), key) == Some(picked)
      invariant forall j | 0 <= j < i :: picked[j] in records && IsOpposite(targets[j], picked[j])
      invariant DistinctStatutes(picked) && Statutes(picked) !! Statutes(targets)
    {
      assert targets[..i + 1][..i] == targets[..i] && targets[..i + 1][i] == targets[i];
      var ranked := RankedOpposites(records, targets[i], key);
      var next := FirstUnused(ranked, used);
      if next.None? {
        NoNegative(records, targets, Statutes(targets), key, i + 1);
        return None;
      }
      var r := next.value;
      SortMember(x => key(targets[i], x), Opposites(records, targets[i]), r);
      OppositesMember(records, targets[i], r);
      Append(picked, r);
      picked := picked + [r];
      used := used + {r.statute};
    }
    assert targets[..|targets|] == targets;
    negatives := Some(picked);
  }

  method FirstUnused(ranked: seq<Record>, used: set<int>) returns (next: Option<Record>)
    ensures next == NextUnused(ranked, used)
    ensures next.Some? ==> next.value in ranked && next.value.statute !in used
  {
    for i := 0 to |ranked|
      invariant NextUnused(ranked, used) == NextUnused(ranked[i..], used)
    {
      if ranked[i].statute !in used {
        return Some(ranked[i]);
      }
    }
    next := None;
  }

  /** In rank order, every record whose statute is not used yet, until `wanted` of them are taken. */
  function FirstDistractors(pool: seq<Record>, used: set<int>, wanted: nat): seq<Record> {
    if pool == [] then []
    else
      var front, last := FirstDistractors(pool[..|pool| - 1], used, wanted), pool[|pool| - 1];
      if (front != [] && |front| == wanted) || last.statute in used || last.statute in Statutes(front) then front
      else front + [last]
  }

  lemma {:induction false} EnoughDistractors(pool: seq<Record>, used: set<int>, wanted: nat, i: nat)
    requires i <= |pool| && FirstDistractors(pool[..i], used, wanted) != []
    requires |FirstDistractors(pool[..i], used, wanted)| == wanted
    ensures FirstDistractors(pool, used, wanted) == FirstDistractors(pool[..i], used, wanted)
  {
    if i < |pool| {
      var front := pool[..|pool| - 1];
      assert front[..i] == pool[..i];
      EnoughDistractors(front, used, wanted, i);
    } else {
      assert pool[..i] == pool;
    }
  }

  lemma OneMoreDistractor(pool: seq<Record>, used: set<int>, wanted: nat, i: nat)
    requires i < |pool|
    ensures var front := FirstDistractors(pool[..i], used, wanted);
      FirstDistractors(pool[..i + 1], used, wanted)
      == if (front != [] && |front| == wanted) || pool[i].statute in used || pool[i].statute in Statutes(front)
         then front else front + [pool[i]]
  {
    assert pool[..i + 1][..i] == pool[..i];
  }

  method PickDistractors(pool: seq<Record>, used: set<int>, wanted: nat) returns (distractors: seq<Record>)
    ensures distractors == FirstDistractors(pool, used, wanted)
  {
    hide Statutes;
    distractors := [];
    for i := 0 to |pool|
      invariant distractors == FirstDistractors(pool[..i], used, wanted)
      invariant distractors == [] || |distractors| != wanted
    {
      OneMoreDistractor(pool, used, wanted, i);
      hide FirstDistractors;
      if pool[i].statute in used || pool[i].statute in Statutes(distractors) {
        continue;
      }
      distractors := distractors + [pool[i]];
      if |distractors| == wanted {
        EnoughDistractors(pool, used, wanted, i + 1);
        return;
      }
    }
    assert pool[..|pool|] == pool;
  }

  /** Distractors have statutes not used before. For `wanted` zero the stopping test never holds, so
      every statute of the pool is taken. */
  lemma {:induction false} DistractorsAreDistinct(pool: seq<Record>, used: set<int>, wanted: nat)
    ensures var distractors := FirstDistractors(pool, used, wanted);
      && (forall r | r in distractors :: r in pool)
      && DistinctStatutes(distractors) && Statutes(distractors) !! used
      && (wanted >= 1 ==> |distractors| <= wanted)
      && (wanted == 0 || |distractors| < wanted ==> Statutes(distractors) == Statutes(pool) - used)
  {
    hide Statutes, DistinctStatutes, Groups, DistinctGroups;
    NoRecords();
    if pool != [] {
      var init, last := pool[..|pool| - 1], pool[|pool| - 1];
      DistractorsAreDistinct(init, used, wanted);
      assert pool == init + [last];
      Append(FirstDistractors(init, used, wanted), last);
      AppendSets(init, last);
    }
  }

  // ---------------------------------------------------------------- one case

  /** Same state and, since every record carries the one snapshot year, the same year. */
  predicate IsApplicable(c: Case, candidate: Candidate) {
    candidate.record.state == c.state
  }

  predicate HasNegative(c: Case, target: Record) {
    exists id | id in c.candidates :: c.candidates[id].origins == {WrongState} && IsOpposite(target, c.candidates[id].record)
  }

  /** F targets with distinct groups and statutes, each its own gold candidate with a hard negative;
      every candidate was entered once, and `same` of them are distractors. */
  predicate WellBuilt(c: Case, fields: nat, same: nat) {
    && |c.targets| == fields && DistinctGroups(c.targets) && DistinctStatutes(c.targets)
    && (forall r | r in c.targets :: r.state == c.state && HasNegative(c, r)
          && r.statute in c.candidates && c.candidates[r.statute] == Candidate(r, {Gold}))
    && (forall id | id in c.candidates :: c.candidates[id].record.statute == id && |c.candidates[id].origins| == 1)
    && |c.candidates| == 2 * fields + same
    && |set id | id in c.candidates && IsApplicable(c, c.candidates[id])| == fields + same
  }

  predicate FieldsEntered(entries: seq<Entry>, targets: seq<Record>, negatives: seq<Record>) {
    && (forall r | r in targets :: Entry(r, Gold) in entries)
    && (forall r | r in negatives :: Entry(r, WrongState) in entries)
    && (forall e | e in entries ::
          (e.origin.Gold? && e.record in targets) || (e.origin.WrongState? && e.record in negatives))
  }

  lemma {:induction false} FieldsAreEntered(targets: seq<Record>, negatives: seq<Record>)
    requires |targets| == |negatives|
    ensures FieldsEntered(FieldEntries(targets, negatives), targets, negatives)
    ensures |FieldEntries(targets, negatives)| == 2 * |targets|
  {
    if targets != [] {
      var n := |targets| - 1;
      FieldsAreEntered(targets[..n], negatives[..n]);
      assert targets == targets[..n] + [targets[n]] && negatives == negatives[..n] + [negatives[n]];
    }
  }

  lemma {:induction false} FieldEntriesDistinct(targets: seq<Record>, negatives: seq<Record>)
    requires |targets| == |negatives| && DistinctStatutes(targets) && DistinctStatutes(negatives)
    requires Statutes(negatives) !! Statutes(targets)
    ensures DistinctStatutes(RecordsOf(FieldEntries(targets, negatives)))
    ensures Statutes(RecordsOf(FieldEntries(targets, negatives))) == Statutes(targets) + Statutes(negatives)
  {
    hide DistinctStatutes, Statutes, RecordsOf, FieldEntries;
    NoRecords();
    if targets == [] {
      assert negatives == [];
      NoFields();
    } else {
      var n := |targets| - 1;
      FieldEntriesUnfold(targets, negatives);
      var ts, ns, t, m := targets[..n], negatives[..n], targets[n], negatives[n];
      assert targets == ts + [t] && negatives == ns + [m];
      FreshLast(ts, t);
      FreshLast(ns, m);
      FieldEntriesDistinct(ts, ns);
      RecordsOfTwoMore(FieldEntries(ts, ns), Entry(t, Gold), Entry(m, WrongState));
      var before := RecordsOf(FieldEntries(ts, ns));
      AppendTwo(before, t, m);
    }
  }

  lemma NoFields()
    ensures RecordsOf(FieldEntries([], [])) == []
  {
  }

  lemma AppendTwo(rs: seq<Record>, x: Record, y: Record)
    requires DistinctStatutes(rs) && x.statute != y.statute && x.statute !in Statutes(rs) && y.statute !in Statutes(rs)
    ensures DistinctStatutes(rs + [x] + [y]) && Statutes(rs + [x] + [y]) == Statutes(rs) + {x.statute, y.statute}
  {
    hide DistinctStatutes, Statutes;
    Append(rs, x);
    Append(rs + [x], y);
  }

  lemma FieldEntriesUnfold(targets: seq<Record>, negatives: seq<Record>)
    requires |targets| == |negatives| && targets != []
    ensures var n := |targets| - 1;
            FieldEntries(targets, negatives)
            == FieldEntries(targets[..n], negatives[..n]) + [Entry(targets[n], Gold), Entry(negatives[n], WrongState)]
  {
  }

  lemma RecordsOfTwoMore(entries: seq<Entry>, x: Entry, y: Entry)
    ensures RecordsOf(entries + [x, y]) == RecordsOf(entries) + [x.record] + [y.record]
  {
  }

  lemma FreshLast(rs: seq<Record>, r: Record)
    requires DistinctStatutes(rs + [r])
    ensures DistinctStatutes(rs) && r.statute !in Statutes(rs) && Statutes(rs + [r]) == Statutes(rs) + {r.statute}
  {
    AppendSets(rs, r);
    forall i | 0 <= i < |rs| ensures rs[i].statute != r.statute {
      assert (rs + [r])[i] == rs[i] && (rs + [r])[|rs|] == r;
    }
    forall i, j | 0 <= i < j < |rs| ensures rs[i].statute != rs[j].statute {
      assert (rs + [r])[i] == rs[i] && (rs + [r])[j] == rs[j];
    }
    if r.statute in Statutes(rs) {
      var x := StatuteOwner(rs, r.statute);
    }
  }

  lemma RecordsOfEntries(targets: seq<Record>, negatives: seq<Record>, distractors: seq<Record>)
    requires |targets| == |negatives|
    ensures RecordsOf(Entries(targets, negatives, distractors))
         == RecordsOf(FieldEntries(targets, negatives)) + distractors
  {
  }

  lemma EntriesDistinct(targets: seq<Record>, negatives: seq<Record>, distractors: seq<Record>)
    requires |targets| == |negatives|
    requires DistinctStatutes(targets) && DistinctStatutes(negatives) && DistinctStatutes(distractors)
    requires Statutes(negatives) !! Statutes(targets) && Statutes(distractors) !! Statutes(targets) + Statutes(negatives)
    ensures DistinctEntries(Entries(targets, negatives, distractors))
  {
    hide DistinctStatutes, DistinctEntries, Statutes, FieldEntries, RecordsOf, Entries;
    FieldEntriesDistinct(targets, negatives);
    RecordsOfEntries(targets, negatives, distractors);
    JoinDistinct(RecordsOf(FieldEntries(targets, negatives)), distractors);
    DistinctRecordsDistinctEntries(Entries(targets, negatives, distractors));
  }

  /** Counting: the candidates are the entries, and the applicable ones are those of the own state. */
  lemma CaseCounts(c: Case, negatives: seq<Record>, distractors: seq<Record>)
    requires |negatives| == |c.targets|
    requires DistinctStatutes(c.targets) && DistinctStatutes(negatives) && DistinctStatutes(distractors)
    requires Statutes(negatives) !! Statutes(c.targets) && Statutes(distractors) !! Statutes(c.targets) + Statutes(negatives)
    requires forall r | r in c.targets || r in distractors :: r.state == c.state
    requires forall r | r in negatives :: r.state != c.state
    requires c.candidates == Collect(Entries(c.targets, negatives, distractors))
    ensures |c.candidates| == 2 * |c.targets| + |distractors|
    ensures |set id | id in c.candidates && IsApplicable(c, c.candidates[id])| == |c.targets| + |distractors|
  {
    var entries := Entries(c.targets, negatives, distractors);
    FieldsAreEntered(c.targets, negatives);
    EntriesDistinct(c.targets, negatives, distractors);
    DistinctEntriesNeverMerge(entries);
    JoinDistinct(c.targets, distractors);
    var own := c.targets + distractors;
    DistinctStatutesCount(own);
    hide Collect, FieldEntries, DistinctStatutes, DistinctEntries;
    forall id | id in Statutes(own) ensures id in c.candidates && IsApplicable(c, c.candidates[id]) {
      var r := StatuteOwner(own, id);
      EntryOf(c.targets, negatives, distractors, r);
    }
    forall id | id in c.candidates && IsApplicable(c, c.candidates[id]) ensures id in Statutes(own) {
      var e :| e in entries && e.record.statute == id;
      OwnEntry(c.state, c.targets, negatives, distractors, e);
      MemberSets(own, e.record);
    }
    assert (set id | id in c.candidates && IsApplicable(c, c.candidates[id])) == Statutes(own);
  }

  lemma OwnEntry(state: string, targets: seq<Record>, negatives: seq<Record>, distractors: seq<Record>, e: Entry)
    requires |negatives| == |targets| && e in Entries(targets, negatives, distractors) && e.record.state == state
    requires forall r | r in negatives :: r.state != state
    ensures e.record in targets + distractors
  {
    FieldsAreEntered(targets, negatives);
    hide FieldEntries;
    assert e in FieldEntries(targets, negatives) || e.record in distractors;
  }

  lemma EntryOf(targets: seq<Record>, negatives: seq<Record>, distractors: seq<Record>, r: Record)
    requires |negatives| == |targets| && FieldsEntered(FieldEntries(targets, negatives), targets, negatives)
    ensures r in targets ==> Entry(r, Gold) in Entries(targets, negatives, distractors)
    ensures r in negatives ==> Entry(r, WrongState) in Entries(targets, negatives, distractors)
    ensures r in distractors ==> Entry(r, SameState) in Entries(targets, negatives, distractors)
  {
    hide FieldEntries;
    var same := seq(|distractors|, i requires 0 <= i < |distractors| => Entry(distractors[i], SameState));
    if r in distractors {
      var i :| 0 <= i < |distractors| && distractors[i] == r;
      assert same[i] in same;
    }
  }

  lemma CandidatesStand(c: Case, negatives: seq<Record>, distractors: seq<Record>)
    requires |negatives| == |c.targets| && c.candidates == Collect(Entries(c.targets, negatives, distractors))
    requires DistinctEntries(Entries(c.targets, negatives, distractors))
    requires forall i | 0 <= i < |negatives| :: IsOpposite(c.targets[i], negatives[i])
    ensures forall i | 0 <= i < |c.targets| :: HasNegative(c, c.targets[i]) && c.targets[i].statute in c.candidates
              && c.candidates[c.targets[i].statute] == Candidate(c.targets[i], {Gold})
    ensures forall id | id in c.candidates :: c.candidates[id].record.statute == id && |c.candidates[id].origins| == 1
  {
    var entries := Entries(c.targets, negatives, distractors);
    FieldsAreEntered(c.targets, negatives);
    DistinctEntriesNeverMerge(entries);
    hide Collect, Entries, DistinctEntries, FieldEntries;
    forall i | 0 <= i < |c.targets|
      ensures HasNegative(c, c.targets[i]) && c.targets[i].statute in c.candidates
              && c.candidates[c.targets[i].statute] == Candidate(c.targets[i], {Gold})
    {
      EntryOf(c.targets, negatives, distractors, c.targets[i]);
      EntryOf(c.targets, negatives, distractors, negatives[i]);
      assert c.candidates[negatives[i].statute] == Candidate(negatives[i], {WrongState});
    }
    forall id | id in c.candidates
      ensures c.candidates[id].record.statute == id && |c.candidates[id].origins| == 1
    {
      var e :| e in entries && e.record.statute == id;
      assert c.candidates[id] == Candidate(e.record, {e.origin});
    }
  }

  lemma CaseIsWellBuilt(c: Case, negatives: seq<Record>, distractors: seq<Record>)
    requires DistinctGroups(c.targets) && |negatives| == |c.targets|
    requires DistinctStatutes(c.targets) && DistinctStatutes(negatives) && DistinctStatutes(distractors)
    requires Statutes(negatives) !! Statutes(c.targets) && Statutes(distractors) !! Statutes(c.targets) + Statutes(negatives)
    requires forall r | r in c.targets || r in distractors :: r.state == c.state
    requires forall i | 0 <= i < |negatives| :: IsOpposite(c.targets[i], negatives[i])
    requires c.candidates == Collect(Entries(c.targets, negatives, distractors))
    ensures WellBuilt(c, |c.targets|, |distractors|)
  {
    forall r | r in negatives ensures r.state != c.state {
      var i :| 0 <= i < |negatives| && negatives[i] == r;
      assert c.targets[i] in c.targets;
    }
    CaseCounts(c, negatives, distractors);
    EntriesDistinct(c.targets, negatives, distractors);
    hide Collect, Entries, DistinctEntries, DistinctStatutes, DistinctGroups, IsApplicable, HasNegative, Statutes;
    CandidatesStand(c, negatives, distractors);
  }

  function DistractorsOf(records: seq<Record>, state: string, targets: seq<Record>, negatives: seq<Record>,
                         number: nat, wanted: nat, orders: Orders): seq<Record>
  {
    var used := Statutes(targets) + Statutes(negatives);
    var pool := DistractorPool(records, state, Groups(targets), used);
    FirstDistractors(SortBy(x => orders.distractorKey(number, targets, x), pool), used, wanted)
  }

  /** The case around some targets, if it can be completed. */
  function CaseOf(records: seq<Record>, state: string, targets: seq<Record>, number: nat, wanted: nat, orders: Orders)
    : Option<Case>
  {
    var negatives := FirstNegatives(records, targets, Statutes(targets), (t, x) => orders.negativeKey(number, t, x));
    if negatives.None? || |negatives.value| != |targets| then None
    else
      var distractors := DistractorsOf(records, state, targets, negatives.value, number, wanted, orders);
      if |distractors| < wanted then None
      else Some(Case(state, targets, Collect(Entries(targets, negatives.value, distractors))))
  }

  /** One attempt at a case; none when a hard negative or enough distractors are missing. */
  method BuildCase(records: seq<Record>, state: string, targets: seq<Record>, number: nat, distractorCount: nat, orders: Orders)
    returns (built: Option<Case>, ghost same: nat)
    requires DistinctGroups(targets) && DistinctStatutes(targets)
    requires forall r | r in targets :: r.state == state
    ensures built == CaseOf(records, state, targets, number, distractorCount, orders)
    ensures built.Some? ==> built.value.state == state && built.value.targets == targets
                            && WellBuilt(built.value, |targets|, same)
    ensures built.Some? && distractorCount >= 1 ==> same == distractorCount
    ensures built.Some? && distractorCount == 0 ==> EveryOtherStatute(records, built.value)
  {
    hide Collect, Entries, FieldEntries, DistinctStatutes, DistinctGroups, Statutes, Groups, WellBuilt, SortBy,
         DistinctEntries, EveryOtherStatute, FirstNegatives, FirstDistractors;
    same := 0;
    var negatives := PickNegatives(records, targets, (t, x) => orders.negativeKey(number, t, x));
    if negatives.None? {
      return None, 0;
    }
    var candidates: map<int, Candidate> := map[];
    NoEntries();
    for i := 0 to |targets|
      invariant candidates == Collect(FieldEntries(targets[..i], negatives.value[..i]))
    {
      candidates := Merge(Merge(candidates, Entry(targets[i], Gold)), Entry(negatives.value[i], WrongState));
      CollectField(targets, negatives.value, i);
    }
    var usedGroups := Groups(targets);
    var used := Statutes(targets) + Statutes(negatives.value);
    var pool := DistractorPool(records, state, usedGroups, used);
    var ranked := SortBy(x => orders.distractorKey(number, targets, x), pool);
    var distractors := PickDistractors(ranked, used, distractorCount);
    DistractorsAreDistinct(ranked, used, distractorCount);
    forall r ensures r in ranked <==> r in pool {
      SortMember(x => orders.distractorKey(number, targets, x), pool, r);
    }
    if |distractors| < distractorCount {
      return None, 0;
    }
    assert targets[..|targets|] == targets && negatives.value[..|targets|] == negatives.value;
    NoDistractors(targets, negatives.value);
    for i := 0 to |distractors|
      invariant candidates == Collect(Entries(targets, negatives.value, distractors[..i]))
    {
      candidates := Merge(candidates, Entry(distractors[i], SameState));
      CollectDistractor(targets, negatives.value, distractors, i);
    }
    assert distractors[..|distractors|] == distractors;
    var c := Case(state, targets, candidates);
    CaseIsWellBuilt(c, negatives.value, distractors);
    if distractorCount == 0 {
      EntriesDistinct(targets, negatives.value, distractors);
      NothingLeftOut(records, c, negatives.value, distractors, ranked, pool);
    }
    same := |distractors|;
    built := Some(c);
  }

  /** Without a distractor count to reach, every statute of the state's other questions is taken. */
  predicate EveryOtherStatute(records: seq<Record>, c: Case) {
    forall r | r in records && r.state == c.state && r.group !in Groups(c.targets) :: r.statute in c.candidates
  }

  lemma NothingLeftOut(records: seq<Record>, c: Case, negatives: seq<Record>, distractors: seq<Record>,
                       ranked: seq<Record>, pool: seq<Record>)
    requires |negatives| == |c.targets| && c.candidates == Collect(Entries(c.targets, negatives, distractors))
    requires DistinctEntries(Entries(c.targets, negatives, distractors))
    requires pool == DistractorPool(records, c.state, Groups(c.targets), Statutes(c.targets) + Statutes(negatives))
    requires forall r :: r in ranked <==> r in pool
    requires Statutes(distractors) == Statutes(ranked) - (Statutes(c.targets) + Statutes(negatives))
    ensures EveryOtherStatute(records, c)
  {
    FieldsAreEntered(c.targets, negatives);
    DistinctEntriesNeverMerge(Entries(c.targets, negatives, distractors));
    hide Collect, Entries, FieldEntries, DistinctEntries, Statutes, Groups, DistractorPool;
    forall r | r in records && r.state == c.state && r.group !in Groups(c.targets)
      ensures r.statute in c.candidates
    {
      var owner: Record;
      if r.statute in Statutes(c.targets) {
        owner := StatuteOwner(c.targets, r.statute);
      } else if r.statute in Statutes(negatives) {
        owner := StatuteOwner(negatives, r.statute);
      } else {
        assert r in pool;
        MemberSets(ranked, r);
        owner := StatuteOwner(distractors, r.statute);
      }
      EntryOf(c.targets, negatives, distractors, owner);
    }
  }

  lemma NoEntries()
    ensures Collect(FieldEntries([], [])) == map[]
  {
  }

  lemma NoDistractors(targets: seq<Record>, negatives: seq<Record>)
    requires |targets| == |negatives|
    ensures Entries(targets, negatives, []) == FieldEntries(targets, negatives)
  {
  }

  lemma CollectField(targets: seq<Record>, negatives: seq<Record>, i: nat)
    requires |negatives| == |targets| && i < |targets|
    ensures Collect(FieldEntries(targets[..i + 1], negatives[..i + 1]))
            == Merge(Merge(Collect(FieldEntries(targets[..i], negatives[..i])), Entry(targets[i], Gold)),
                     Entry(negatives[i], WrongState))
  {
    hide Merge;
    assert targets[..i + 1][..i] == targets[..i] && negatives[..i + 1][..i] == negatives[..i];
    var before := FieldEntries(targets[..i], negatives[..i]);
    var g, w := Entry(targets[i], Gold), Entry(negatives[i], WrongState);
    assert (before + [g, w])[..|before| + 1] == before + [g];
    assert (before + [g])[..|before|] == before;
  }

  lemma CollectDistractor(targets: seq<Record>, negatives: seq<Record>, distractors: seq<Record>, i: nat)
    requires |negatives| == |targets| && i < |distractors|
    ensures Collect(Entries(targets, negatives, distractors[..i + 1]))
            == Merge(Collect(Entries(targets, negatives, distractors[..i])), Entry(distractors[i], SameState))
  {
    hide Merge, FieldEntries;
    var before := Entries(targets, negatives, distractors[..i]);
    assert Entries(targets, negatives, distractors[..i + 1]) == before + [Entry(distractors[i], SameState)];
  }

  function DistractorPool(records: seq<Record>, state: string, usedGroups: set<int>, used: set<int>): (pool: seq<Record>)
    ensures forall r :: r in pool <==> r in records && r.state == state && r.group !in usedGroups && r.statute !in used
  {
    if records == [] then []
    else
      var last := records[|records| - 1];
      assert records == records[..|records| - 1] + [last];
      DistractorPool(records[..|records| - 1], state, usedGroups, used)
      + if last.state == state && last.group !in usedGroups && last.statute !in used then [last] else []
  }

  // ---------------------------------------------------------------- the whole set of cases

  /** The distinct states of the records, in order of first appearance. */
  function StatesOf(records: seq<Record>): seq<string> {
    if records == [] then []
    else
      var earlier, state := StatesOf(records[..|records| - 1]), records[|records| - 1].state;
      if state in earlier then earlier else earlier + [state]
  }

  /** Some other record asks the same group in another state and was answered the other way. */
  ghost predicate HasOpposite(all: seq<Record>, x: Record) {
    exists y :: y in all && y.group == x.group && y.state != x.state && y.yes != x.yes
  }

  /** Exactly the state's records with an opposite somewhere are eligible. */
  lemma {:induction false} EligibleIff(records: seq<Record>, all: seq<Record>, state: string, x: Record)
    ensures x in Eligible(records, all, state) <==> x in records && x.state == state && HasOpposite(all, x)
  {
    if records != [] {
      var init, last := records[..|records| - 1], records[|records| - 1];
      EligibleIff(init, all, state, x);
      assert records == init + [last];
      OppositeExists(all, last);
    }
  }

  lemma OppositeExists(all: seq<Record>, x: Record)
    ensures Opposites(all, x) != [] <==> HasOpposite(all, x)
  {
    hide Opposites;
    if Opposites(all, x) != [] {
      OppositesMember(all, x, Opposites(all, x)[0]);
    }
    if HasOpposite(all, x) {
      var y :| y in all && y.group == x.group && y.state != x.state && y.yes != x.yes;
      OppositesMember(all, x, y);
    }
  }

  /** The records of a state that have a hard negative somewhere. */
  function Eligible(records: seq<Record>, all: seq<Record>, state: string): (r: seq<Record>)
    ensures forall x | x in r :: x in records && x.state == state
  {
    if records == [] then []
    else
      var last := records[|records| - 1];
      Eligible(records[..|records| - 1], all, state)
      + if last.state == state && Opposites(all, last) != [] then [last] else []
  }

  function MaxRounds(records: seq<Record>, states: seq<string>, fields: nat): nat
    requires fields >= 1
  {
    if states == [] then 0
    else
      var n := |states| - 1;
      var here := |Groups(Eligible(records, records, states[n]))| / fields;
      var rest := MaxRounds(records, states[..n], fields);
      if here > rest then here else rest
  }

  /** The states with enough question groups, in the order the seed gives them. */
  function EligibleStates(records: seq<Record>, states: seq<string>, fields: nat, key: string -> int): seq<string> {
    if states == [] then []
    else
      var n := |states| - 1;
      var rest := EligibleStates(records, states[..n], fields, key);
      if |Groups(Eligible(records, records, states[n]))| >= fields then InsertState(key, states[n], rest) else rest
  }

  function InsertState(key: string -> int, state: string, sorted: seq<string>): seq<string> {
    if sorted == [] || key(state) < key(sorted[0])
       || (key(state) == key(sorted[0]) && LexLess(state, sorted[0])) then [state] + sorted
    else [sorted[0]] + InsertState(key, state, sorted[1..])
  }

  datatype Plan = Plan(caseCount: int, fields: int, distractors: int) {
    predicate Valid() {
      caseCount > 0 && fields > 0 && distractors >= 0
    }
  }

  /** What each finished case looks like. */
  predicate Promised(plan: Plan, records: seq<Record>, c: Case)
    requires plan.Valid()
  {
    if plan.distractors >= 1 then WellBuilt(c, plan.fields, plan.distractors)
    else EveryOtherStatute(records, c) && |c.candidates| >= 2 * plan.fields
         && WellBuilt(c, plan.fields, |c.candidates| - 2 * plan.fields)
  }

  /** No two cases of one state ask about the same question group. */
  predicate NoGroupReused(cases: seq<Case>) {
    forall i, j | 0 <= i < j < |cases| && cases[i].state == cases[j].state ::
      Groups(cases[i].targets) !! Groups(cases[j].targets)
  }

  /** The groups recorded as used for a state are at least those of its cases. */
  predicate Remembers(used: map<string, set<int>>, cases: seq<Case>) {
    forall i | 0 <= i < |cases| :: cases[i].state in used && Groups(cases[i].targets) <= used[cases[i].state]
  }

  function UsedIn(used: map<string, set<int>>, state: string): set<int> {
    if state in used then used[state] else {}
  }

  lemma AddCase(cases: seq<Case>, used: map<string, set<int>>, c: Case)
    requires NoGroupReused(cases) && Remembers(used, cases) && Groups(c.targets) !! UsedIn(used, c.state)
    ensures NoGroupReused(cases + [c])
    ensures Remembers(used[c.state := UsedIn(used, c.state) + Groups(c.targets)], cases + [c])
  {
    hide Groups;
  }

  datatype Progress = Progress(cases: seq<Case>, used: map<string, set<int>>)

  /** What a round makes of one state: a case more, or nothing when the state cannot give one. */
  function AfterState(plan: Plan, records: seq<Record>, state: string, round: nat, orders: Orders, p: Progress): Progress
    requires plan.Valid()
  {
    var ranked := SortBy(x => orders.targetKey(round, state, x), Eligible(records, records, state));
    var targets := FirstTargets(ranked, UsedIn(p.used, state), plan.fields);
    if |targets| != plan.fields then p
    else
      var c := CaseOf(records, state, targets, |p.cases| + 1, plan.distractors, orders);
      if c.None? then p
      else Progress(p.cases + [c.value], p.used[state := UsedIn(p.used, state) + Groups(targets)])
  }

  /** A round goes through the states until there are enough cases. */
  function AfterStates(plan: Plan, records: seq<Record>, states: seq<string>, round: nat, orders: Orders, p: Progress): Progress
    requires plan.Valid()
  {
    if states == [] || |p.cases| == plan.caseCount then p
    else AfterStates(plan, records, states[1..], round, orders, AfterState(plan, records, states[0], round, orders, p))
  }

  /** Rounds follow one another until there are enough cases or one of them brought nothing. */
  function AfterRounds(plan: Plan, records: seq<Record>, states: seq<string>, round: nat, rounds: nat, orders: Orders,
                       p: Progress): Progress
    requires plan.Valid() && round <= rounds
    decreases rounds - round
  {
    if round == rounds then p
    else
      var q := AfterStates(plan, records, states, round, orders, p);
      if |q.cases| == plan.caseCount || |q.cases| == |p.cases| then q
      else AfterRounds(plan, records, states, round + 1, rounds, orders, q)
  }

  /** One state, step by step. */
  method TryState(plan: Plan, records: seq<Record>, state: string, round: nat, orders: Orders, p: Progress)
    returns (q: Progress)
    requires plan.Valid() && |p.cases| < plan.caseCount && Sound(plan, records, p)
    ensures q == AfterState(plan, records, state, round, orders, p)
    ensures |q.cases| <= plan.caseCount && Sound(plan, records, q)
  {
    hide Groups, NoGroupReused, Remembers, WellBuilt, EveryOtherStatute, SortBy, Eligible, FirstTargets, CaseOf, UsedIn;
    var eligible := Eligible(records, records, state);
    var ranked := SortBy(x => orders.targetKey(round, state, x), eligible);
    var targets := PickTargets(ranked, UsedIn(p.used, state), plan.fields);
    TargetsAreDistinct(ranked, UsedIn(p.used, state), plan.fields);
    if |targets| != plan.fields {
      return p;
    }
    forall r | r in targets ensures r.state == state {
      SortMember(x => orders.targetKey(round, state, x), eligible, r);
      EligibleState(records, state, r);
    }
    var built, same := BuildCase(records, state, targets, |p.cases| + 1, plan.distractors, orders);
    if built.None? {
      return p;
    }
    CaseSize(built.value, plan.fields, same);
    AddCase(p.cases, p.used, built.value);
    q := Progress(p.cases + [built.value], p.used[state := UsedIn(p.used, state) + Groups(targets)]);
  }

  /** What holds of the cases at any time. */
  predicate Sound(plan: Plan, records: seq<Record>, p: Progress)
    requires plan.Valid()
  {
    NoGroupReused(p.cases) && Remembers(p.used, p.cases) && forall c | c in p.cases :: Promised(plan, records, c)
  }

  /** One pass over the states. */
  method BuildRound(plan: Plan, records: seq<Record>, states: seq<string>, round: nat, orders: Orders, before: Progress)
    returns (p: Progress)
    requires plan.Valid() && |before.cases| < plan.caseCount && Sound(plan, records, before)
    ensures p == AfterStates(plan, records, states, round, orders, before)
    ensures |p.cases| <= plan.caseCount && Sound(plan, records, p)
  {
    hide Sound, AfterState;
    p := before;
    for s := 0 to |states|
      invariant |p.cases| < plan.caseCount && Sound(plan, records, p)
      invariant AfterStates(plan, records, states, round, orders, before)
             == AfterStates(plan, records, states[s..], round, orders, p)
    {
      p := TryState(plan, records, states[s], round, orders, p);
      if |p.cases| == plan.caseCount {
        return;
      }
    }
  }

  lemma EligibleState(records: seq<Record>, state: string, r: Record)
    requires r in Eligible(records, records, state)
    ensures r.state == state
  {
  }

  lemma CaseSize(c: Case, fields: nat, same: nat)
    requires WellBuilt(c, fields, same)
    ensures |c.candidates| == 2 * fields + same
  {
  }

  /** All the cases the rounds produce. */
  function CasesOf(records: seq<Record>, plan: Plan, orders: Orders): seq<Case>
    requires plan.Valid()
  {
    var allStates := StatesOf(records);
    AfterRounds(plan, records, EligibleStates(records, allStates, plan.fields, orders.stateKey), 0,
      MaxRounds(records, allStates, plan.fields), orders, Progress([], map[])).cases
  }

  /** Builds the requested number of cases or reports that the source cannot. */
  method BuildCases(records: seq<Record>, plan: Plan, orders: Orders) returns (built: Result<seq<Case>>)
    ensures built.Ok? <==> plan.Valid() && |CasesOf(records, plan, orders)| == plan.caseCount
    ensures built.Ok? ==> built.value == CasesOf(records, plan, orders)
    ensures built.Ok? ==> |built.value| == plan.caseCount && NoGroupReused(built.value)
                          && forall c | c in built.value :: Promised(plan, records, c)
  {
    if plan.caseCount <= 0 || plan.fields <= 0 || plan.distractors < 0 {
      return Err("case and field counts must be positive");
    }
    hide WellBuilt, Groups, Eligible, AfterStates, EveryOtherStatute, EligibleStates, StatesOf, MaxRounds;
    var allStates := StatesOf(records);
    var states := EligibleStates(records, allStates, plan.fields, orders.stateKey);
    var rounds := MaxRounds(records, allStates, plan.fields);
    var p := Progress([], map[]);
    var round := 0;
    while round < rounds
      invariant round <= rounds && |p.cases| < plan.caseCount && Sound(plan, records, p)
      invariant CasesOf(records, plan, orders) == AfterRounds(plan, records, states, round, rounds, orders, p).cases
    {
      var q := BuildRound(plan, records, states, round, orders, p);
      if |q.cases| == plan.caseCount || |q.cases| == |p.cases| {
        p := q;
        break;
      }
      p, round := q, round + 1;
    }
    if |p.cases| != plan.caseCount {
      return Err("too few cases under the identifiability constraints");
    }
    built := Ok(p.cases);
  }
}
