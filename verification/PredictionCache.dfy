/** The deduplicating, resumable prediction cache of the conflict classifier
    (flood_system/frc_conflicts_evaluation.py) and its seeding from earlier predictions
    (flood_system/frc_conflicts_ablation.py).

    The language model is a function of the selection signature: a case and its ordered evidence. */
module PredictionCache {
  import opened Ordering

  datatype Signature = Signature(caseId: string, ids: seq<string>)

  datatype RowKey = RowKey(caseId: string, selector: string)

  datatype Row = Row(caseId: string, selector: string, selectedIds: seq<string>, conflictType: string)

  datatype Prediction = Prediction(
    cacheKey: string, caseId: string, selector: string, goldLabel: string,
    raw: string, predicted: Option<string>, reused: bool)

  type Model = Signature -> string
  type Normalizer = string -> Option<string>

  /** Everything a run needs to know about what it was given. The model's text is stored without the white
      space around it, and normalised as it is. */
  datatype Task = Task(rows: seq<Row>, cacheKey: string, model: Model, strip: string -> string, normalize: Normalizer)

  function SignatureOf(row: Row): Signature {
    Signature(row.caseId, row.selectedIds)
  }

  function KeyOf(row: Row): RowKey {
    RowKey(row.caseId, row.selector)
  }

  function LineKey(line: Prediction): RowKey {
    RowKey(line.caseId, line.selector)
  }

  /** The append-only checkpoint file: its whole lines, and whether a fragment of a line follows them,
      which makes the reader raise. */
  class Checkpoint {
    var lines: seq<Prediction>
    var torn: bool

    constructor (initial: seq<Prediction>)
      ensures lines == initial && !torn
    {
      lines, torn := initial, false;
    }

    method Append(more: seq<Prediction>)
      requires !torn
      modifies this`lines
      ensures lines == old(lines) + more
    {
      lines := lines + more;
    }
  }

  /** The last line of each key, among the lines of this cache key. */
  function Latest(lines: seq<Prediction>, cacheKey: string): map<RowKey, Prediction> {
    if lines == [] then map[]
    else
      var before, last := Latest(lines[..|lines| - 1], cacheKey), lines[|lines| - 1];
      if last.cacheKey == cacheKey then before[LineKey(last) := last] else before
  }

  /** The dictionary after some more lines. */
  function Updated(completed: map<RowKey, Prediction>, more: seq<Prediction>, cacheKey: string): map<RowKey, Prediction> {
    if more == [] then completed
    else
      var before, last := Updated(completed, more[..|more| - 1], cacheKey), more[|more| - 1];
      if last.cacheKey == cacheKey then before[LineKey(last) := last] else before
  }

  lemma {:induction false} LatestAppend(lines: seq<Prediction>, more: seq<Prediction>, cacheKey: string)
    ensures Latest(lines + more, cacheKey) == Updated(Latest(lines, cacheKey), more, cacheKey)
  {
    if more == [] {
      assert lines + more == lines;
    } else {
      LatestAppend(lines, more[..|more| - 1], cacheKey);
      assert (lines + more)[..|lines + more| - 1] == lines + more[..|more| - 1];
    }
  }

  lemma {:induction false} UpdatedTwice(completed: map<RowKey, Prediction>, a: seq<Prediction>, b: seq<Prediction>, cacheKey: string)
    ensures Updated(completed, a + b, cacheKey) == Updated(Updated(completed, a, cacheKey), b, cacheKey)
  {
    if b == [] {
      assert a + b == a;
    } else {
      UpdatedTwice(completed, a, b[..|b| - 1], cacheKey);
      assert (a + b)[..|a + b| - 1] == a + b[..|b| - 1];
    }
  }

  lemma UpdatedOnce(completed: map<RowKey, Prediction>, more: seq<Prediction>, p: Prediction, cacheKey: string)
    requires p.cacheKey == cacheKey
    ensures Updated(completed, more + [p], cacheKey) == Updated(completed, more, cacheKey)[LineKey(p) := p]
  {
    assert (more + [p])[..|more|] == more;
  }

  /** The prediction is what the model says about the row. */
  predicate Answers(p: Prediction, row: Row, t: Task) {
    p.raw == t.strip(t.model(SignatureOf(row))) && p.predicted == t.normalize(t.model(SignatureOf(row)))
  }

  /** A line of this cache key tells the truth about every row it could be used for. */
  ghost predicate FaithfulLine(p: Prediction, t: Task) {
    p.cacheKey == t.cacheKey ==> forall row | row in t.rows && KeyOf(row) == LineKey(p) :: Answers(p, row, t)
  }

  ghost predicate Faithful(lines: seq<Prediction>, t: Task) {
    forall p | p in lines :: FaithfulLine(p, t)
  }

  /** Rows for the same case and selector get the same answer from the model. */
  predicate KeysDetermineAnswer(t: Task) {
    forall r, s | r in t.rows && s in t.rows && KeyOf(r) == KeyOf(s) ::
      && t.strip(t.model(SignatureOf(r))) == t.strip(t.model(SignatureOf(s)))
      && t.normalize(t.model(SignatureOf(r))) == t.normalize(t.model(SignatureOf(s)))
  }

  /** Rows for the same case and selector select the same evidence. */
  predicate KeysDetermineSignature(rows: seq<Row>) {
    forall r, s | r in rows && s in rows && KeyOf(r) == KeyOf(s) :: SignatureOf(r) == SignatureOf(s)
  }

  lemma {:induction false} LatestIsALine(lines: seq<Prediction>, cacheKey: string, key: RowKey)
    ensures key in Latest(lines, cacheKey) ==>
      var p := Latest(lines, cacheKey)[key];
      p in lines && p.cacheKey == cacheKey && LineKey(p) == key
    ensures key in Latest(lines, cacheKey) <==> exists p :: p in lines && p.cacheKey == cacheKey && LineKey(p) == key
  {
    if lines != [] {
      var init, last := lines[..|lines| - 1], lines[|lines| - 1];
      LatestIsALine(init, cacheKey, key);
      assert lines == init + [last];
    }
  }

  /** The signatures of the rows that already have a prediction. */
  function Persisted(rows: seq<Row>, completed: map<RowKey, Prediction>): set<Signature> {
    set row | row in rows && KeyOf(row) in completed :: SignatureOf(row)
  }

  function Signatures(rows: seq<Row>): set<Signature> {
    set row | row in rows :: SignatureOf(row)
  }

  /** Every prediction of `completed` answers the rows it is looked up for. */
  ghost predicate AllAnswer(t: Task, completed: map<RowKey, Prediction>) {
    forall row | row in t.rows && KeyOf(row) in completed ::
      Answers(completed[KeyOf(row)], row, t)
  }

  /** Reading raises on a torn file. */
  method ReadCompleted(t: Task, file: Checkpoint) returns (result: Result<map<RowKey, Prediction>>)
    ensures result == if file.torn then Err("not a JSON line") else Ok(Latest(file.lines, t.cacheKey))
  {
    var completed: map<RowKey, Prediction> := map[];
    for i := 0 to |file.lines|
      invariant completed == Latest(file.lines[..i], t.cacheKey)
    {
      assert file.lines[..i + 1][..i] == file.lines[..i];
      if file.lines[i].cacheKey == t.cacheKey {
        completed := completed[LineKey(file.lines[i]) := file.lines[i]];
      }
    }
    assert file.lines[..|file.lines|] == file.lines;
    result := if file.torn then Err("not a JSON line") else Ok(completed);
  }

  /** The first prediction found for each signature. */
  method IndexBySignature(t: Task, completed: map<RowKey, Prediction>) returns (known: map<Signature, Prediction>)
    ensures known.Keys == Persisted(t.rows, completed)
    ensures AllAnswer(t, completed) ==> KnownAnswer(t, known)
    ensures WellKeyed(t, completed) ==> WellIndexed(t, known)
    ensures IndexedFrom(t, completed, known)
  {
    known := map[];
    for i := 0 to |t.rows|
      invariant known.Keys == Persisted(t.rows[..i], completed)
      invariant AllAnswer(t, completed) ==> KnownAnswer(t, known)
      invariant WellKeyed(t, completed) ==> WellIndexed(t, known)
      invariant IndexedFrom(t, completed, known)
    {
      var row := t.rows[i];
      assert t.rows[..i + 1] == t.rows[..i] + [row] && row in t.rows;
      if KeyOf(row) in completed && SignatureOf(row) !in known {
        assert Persists(completed, row, SignatureOf(row), completed[KeyOf(row)]);
        known := known[SignatureOf(row) := completed[KeyOf(row)]];
      }
    }
    assert t.rows[..|t.rows|] == t.rows;
  }

  /** Rows waiting for the model, grouped by signature in order of first appearance. */
  datatype Pending = Pending(order: seq<Signature>, groups: map<Signature, seq<Row>>)

  predicate GroupOf(rows: seq<Row>, s: Signature, group: seq<Row>) {
    forall row | row in group :: row in rows && SignatureOf(row) == s
  }

  /** The order lists the keys of the groups, each once. */
  predicate Lists(order: seq<Signature>, keys: set<Signature>) {
    OnceEach(order, keys) && forall s | s in keys :: s in order
  }

  predicate OnceEach(order: seq<Signature>, among: set<Signature>) {
    && (forall i, j | 0 <= i < j < |order| :: order[i] != order[j])
    && (forall i | 0 <= i < |order| :: order[i] in among)
  }

  lemma ListsOnce(order: seq<Signature>, keys: set<Signature>, among: set<Signature>)
    requires Lists(order, keys) && keys <= among
    ensures OnceEach(order, among)
  {
  }

  ghost predicate WellGrouped(t: Task, pending: Pending) {
    && Lists(pending.order, pending.groups.Keys)
    && (forall s | s in pending.groups :: GroupOf(t.rows, s, pending.groups[s]) && pending.groups[s] != [])
  }

  function AddToGroup(pending: Pending, row: Row): Pending {
    var s := SignatureOf(row);
    if s in pending.groups
    then Pending(pending.order, pending.groups[s := pending.groups[s] + [row]])
    else Pending(pending.order + [s], pending.groups[s := [row]])
  }

  predicate Waits(pending: Pending, row: Row) {
    SignatureOf(row) in pending.groups && row in pending.groups[SignatureOf(row)]
  }

  lemma AddToGroupKeeps(t: Task, pending: Pending, row: Row)
    requires WellGrouped(t, pending) && row in t.rows
    ensures WellGrouped(t, AddToGroup(pending, row)) && Waits(AddToGroup(pending, row), row)
    ensures AddToGroup(pending, row).groups.Keys == pending.groups.Keys + {SignatureOf(row)}
    ensures forall r :: Waits(AddToGroup(pending, row), r) <==> Waits(pending, r) || r == row
  {
    var s := SignatureOf(row);
    if s !in pending.groups {
      ListsOneMore(pending.order, pending.groups.Keys, s);
      assert pending.groups[s := [row]].Keys == pending.groups.Keys + {s};
    } else {
      assert pending.groups[s := pending.groups[s] + [row]].Keys == pending.groups.Keys + {s} == pending.groups.Keys;
    }
    hide Lists;
  }

  lemma ListsOneMore(order: seq<Signature>, keys: set<Signature>, s: Signature)
    requires Lists(order, keys) && s !in keys
    ensures Lists(order + [s], keys + {s})
  {
  }

  /** What the cache may hold: well-keyed predictions of this cache key. */
  ghost predicate WellKeyed(t: Task, completed: map<RowKey, Prediction>) {
    forall key | key in completed :: LineKey(completed[key]) == key && completed[key].cacheKey == t.cacheKey
  }

  ghost predicate KnownAnswer(t: Task, known: map<Signature, Prediction>) {
    forall s | s in known :: known[s].raw == t.strip(t.model(s)) && known[s].predicted == t.normalize(t.model(s))
  }

  ghost predicate WellIndexed(t: Task, known: map<Signature, Prediction>) {
    forall s | s in known :: known[s].caseId == s.caseId && known[s].cacheKey == t.cacheKey
  }

  /** A truthful prediction for one row is truthful for every row with the same key. */
  lemma OneAnswerForAll(t: Task, completed: map<RowKey, Prediction>, row: Row, p: Prediction)
    requires KeysDetermineAnswer(t) && row in t.rows && LineKey(p) == KeyOf(row)
    requires Answers(p, row, t)
    ensures FaithfulLine(p, t)
    ensures AllAnswer(t, completed) ==> AllAnswer(t, completed[KeyOf(row) := p])
  {
    forall r | r in t.rows && KeyOf(r) == LineKey(p) ensures Answers(p, r, t) {
      assert KeyOf(r) == KeyOf(row);
    }
  }

  /** What was answered stays as it is. */
  ghost predicate Extends(before: map<RowKey, Prediction>, completed: map<RowKey, Prediction>) {
    forall key | key in before :: key in completed && completed[key] == before[key]
  }

  predicate AllPersisted(t: Task, latest: map<RowKey, Prediction>) {
    forall row | row in t.rows :: KeyOf(row) in latest
  }

  /** The known answers are persisted lines of rows with their signatures. */
  ghost predicate IndexedFrom(t: Task, latest: map<RowKey, Prediction>, known: map<Signature, Prediction>) {
    forall s | s in known :: exists row :: row in t.rows && Persists(latest, row, s, known[s])
  }

  predicate Persists(latest: map<RowKey, Prediction>, row: Row, s: Signature, p: Prediction) {
    SignatureOf(row) == s && KeyOf(row) in latest && p == latest[KeyOf(row)]
  }

  /** A reused line repeats the persisted line of a row with the same signature under the key of a row that had none. */
  ghost predicate ReusedLine(t: Task, latest: map<RowKey, Prediction>, p: Prediction) {
    exists row, other :: row in t.rows && other in t.rows && Repeats(latest, p, row, other)
  }

  predicate Repeats(latest: map<RowKey, Prediction>, p: Prediction, row: Row, other: Row) {
    && row.caseId == other.caseId && row.selectedIds == other.selectedIds
    && KeyOf(row) !in latest && KeyOf(other) in latest
    && p == latest[KeyOf(other)].(selector := row.selector, reused := true)
  }

  /** Rows answered so far, and the lines written for them. */
  ghost predicate Reusing(t: Task, before: map<RowKey, Prediction>, known: map<Signature, Prediction>,
                          completed: map<RowKey, Prediction>, reused: seq<Prediction>)
  {
    && WellKeyed(t, completed) && completed == Updated(before, reused, t.cacheKey) && Extends(before, completed)
    && (KeysDetermineSignature(t.rows) ==>
          forall row | row in t.rows && KeyOf(row) in completed :: SignatureOf(row) in known)
    && (AllPersisted(t, before) ==> reused == [])
    && (forall p | p in reused :: ReusedLine(t, before, p))
    && (KeysDetermineAnswer(t) && AllAnswer(t, before) && KnownAnswer(t, known) ==>
          AllAnswer(t, completed) && Faithful(reused, t))
  }

  /** Rows grouped so far: none that was answered before, none whose signature is known. */
  ghost predicate Grouping(t: Task, before: map<RowKey, Prediction>, known: map<Signature, Prediction>, pending: Pending) {
    && WellGrouped(t, pending) && pending.groups.Keys <= Signatures(t.rows) - known.Keys
    && (forall row | Waits(pending, row) :: KeyOf(row) !in before)
    && (AllPersisted(t, before) ==> pending.order == [])
  }

  lemma StartSorting(t: Task, before: map<RowKey, Prediction>, known: map<Signature, Prediction>)
    requires known.Keys == Persisted(t.rows, before) && WellKeyed(t, before)
    ensures Reusing(t, before, known, before, []) && Grouping(t, before, known, Pending([], map[]))
  {
    NothingGrouped(t);
    NothingUpdated(before, t.cacheKey);
  }

  lemma ReuseStep(t: Task, before: map<RowKey, Prediction>, known: map<Signature, Prediction>,
                  completed: map<RowKey, Prediction>, reused: seq<Prediction>, row: Row)
    requires Reusing(t, before, known, completed, reused) && WellIndexed(t, known) && IndexedFrom(t, before, known)
    requires row in t.rows && KeyOf(row) !in completed && SignatureOf(row) in known
    ensures var p := known[SignatureOf(row)].(selector := row.selector, reused := true);
      Reusing(t, before, known, completed[KeyOf(row) := p], reused + [p])
  {
    hide FaithfulLine, Updated, KeysDetermineAnswer;
    var p := known[SignatureOf(row)].(selector := row.selector, reused := true);
    UpdatedOnce(before, reused, p, t.cacheKey);
    LineIsReused(t, before, known, row);
    hide IndexedFrom, ReusedLine;
    if KeysDetermineAnswer(t) && AllAnswer(t, before) && KnownAnswer(t, known) {
      OneAnswerForAll(t, completed, row, p);
    }
  }

  lemma LineIsReused(t: Task, before: map<RowKey, Prediction>, known: map<Signature, Prediction>, row: Row)
    requires IndexedFrom(t, before, known)
    requires row in t.rows && KeyOf(row) !in before && SignatureOf(row) in known
    ensures ReusedLine(t, before, known[SignatureOf(row)].(selector := row.selector, reused := true))
  {
    var s := SignatureOf(row);
    var other :| other in t.rows && Persists(before, other, s, known[s]);
    assert Repeats(before, known[s].(selector := row.selector, reused := true), row, other);
  }

  lemma GroupStep(t: Task, before: map<RowKey, Prediction>, known: map<Signature, Prediction>,
                  completed: map<RowKey, Prediction>, reused: seq<Prediction>, pending: Pending, row: Row)
    requires Grouping(t, before, known, pending) && Reusing(t, before, known, completed, reused)
    requires row in t.rows && KeyOf(row) !in completed && SignatureOf(row) !in known
    ensures Grouping(t, before, known, AddToGroup(pending, row))
    ensures forall r :: Waits(AddToGroup(pending, row), r) <==> Waits(pending, r) || r == row
  {
    hide AddToGroup, WellGrouped, Waits, KeysDetermineSignature, KeysDetermineAnswer, AllAnswer, Faithful, Updated;
    AddToGroupKeeps(t, pending, row);
  }

  lemma Sorted(t: Task, before: map<RowKey, Prediction>, known: map<Signature, Prediction>,
               completed: map<RowKey, Prediction>, reused: seq<Prediction>, pending: Pending)
    requires Reusing(t, before, known, completed, reused) && Grouping(t, before, known, pending)
    requires forall j | 0 <= j < |t.rows| :: KeyOf(t.rows[j]) in completed || Waits(pending, t.rows[j])
    ensures forall row | row in t.rows :: KeyOf(row) in completed || Waits(pending, row)
    ensures KeysDetermineSignature(t.rows) ==> pending.groups.Keys == Signatures(t.rows) - known.Keys
  {
    hide KeysDetermineSignature, WellGrouped, Updated, AllAnswer, Faithful;
  }

  /** Answers rows whose signature is known, and groups the others. */
  method ReuseOrGroup(t: Task, before: map<RowKey, Prediction>, known: map<Signature, Prediction>)
    returns (completed: map<RowKey, Prediction>, reused: seq<Prediction>, pending: Pending)
    requires known.Keys == Persisted(t.rows, before) && WellKeyed(t, before) && WellIndexed(t, known)
    requires IndexedFrom(t, before, known)
    ensures Reusing(t, before, known, completed, reused) && Grouping(t, before, known, pending)
    ensures forall row | row in t.rows :: KeyOf(row) in completed || Waits(pending, row)
    ensures KeysDetermineSignature(t.rows) ==> pending.groups.Keys == Signatures(t.rows) - known.Keys
  {
    hide *;
    completed, reused, pending := before, [], Pending([], map[]);
    StartSorting(t, before, known);
    for i := 0 to |t.rows|
      invariant Reusing(t, before, known, completed, reused) && Grouping(t, before, known, pending)
      invariant forall j | 0 <= j < i :: KeyOf(t.rows[j]) in completed || Waits(pending, t.rows[j])
    {
      var row := t.rows[i];
      if KeyOf(row) in completed {
        continue;
      }
      if SignatureOf(row) in known {
        var p := known[SignatureOf(row)].(selector := row.selector, reused := true);
        ReuseStep(t, before, known, completed, reused, row);
        completed := completed[KeyOf(row) := p];
        reused := reused + [p];
      } else {
        GroupStep(t, before, known, completed, reused, pending, row);
        pending := AddToGroup(pending, row);
      }
    }
    Sorted(t, before, known, completed, reused, pending);
  }

  lemma NothingGrouped(t: Task)
    ensures WellGrouped(t, Pending([], map[])) && forall row :: !Waits(Pending([], map[]), row)
  {
  }

  lemma NothingUpdated(completed: map<RowKey, Prediction>, cacheKey: string)
    ensures Updated(completed, [], cacheKey) == completed
  {
  }

  /** The line carries the model's answer for the signature under the key of a row of the group. */
  ghost predicate OfGroup(t: Task, p: Prediction, s: Signature, group: seq<Row>) {
    && p.cacheKey == t.cacheKey && p.raw == t.strip(t.model(s)) && p.predicted == t.normalize(t.model(s))
    && exists row | row in group :: LineKey(p) == KeyOf(row) && p.goldLabel == row.conflictType
  }

  /** How many lines are not marked as reused. */
  function Fresh(lines: seq<Prediction>): nat {
    if lines == [] then 0 else Fresh(lines[..|lines| - 1]) + if lines[|lines| - 1].reused then 0 else 1
  }

  lemma NothingIsFresh()
    ensures Fresh([]) == 0
  {
  }

  lemma FreshOneMore(lines: seq<Prediction>, p: Prediction)
    ensures Fresh(lines + [p]) == Fresh(lines) + if p.reused then 0 else 1
  {
    assert (lines + [p])[..|lines|] == lines;
  }

  lemma {:induction false} FreshConcat(a: seq<Prediction>, b: seq<Prediction>)
    ensures Fresh(a + b) == Fresh(a) + Fresh(b)
  {
    if b == [] {
      assert a + b == a;
    } else {
      FreshConcat(a, b[..|b| - 1]);
      assert (a + b)[..|a + b| - 1] == a + b[..|b| - 1];
    }
  }

  /** Predictions for a whole group from one model answer. */
  method PredictGroup(t: Task, s: Signature, group: seq<Row>, raw: string, before: map<RowKey, Prediction>)
    returns (completed: map<RowKey, Prediction>, more: seq<Prediction>)
    requires GroupOf(t.rows, s, group) && raw == t.model(s) && WellKeyed(t, before)
    ensures WellKeyed(t, completed) && before.Keys <= completed.Keys
    ensures forall row | row in group :: KeyOf(row) in completed
    ensures completed == Updated(before, more, t.cacheKey)
    ensures forall p | p in more :: OfGroup(t, p, s, group)
    ensures Fresh(more) == if group == [] then 0 else 1
    ensures KeysDetermineAnswer(t) && AllAnswer(t, before) ==>
              AllAnswer(t, completed) && Faithful(more, t)
  {
    hide FaithfulLine, AllAnswer, KeysDetermineAnswer, Updated, Fresh;
    NothingIsFresh();
    completed := before;
    more := [];
    NothingUpdated(before, t.cacheKey);
    for i := 0 to |group|
      invariant WellKeyed(t, completed) && before.Keys <= completed.Keys
      invariant forall j | 0 <= j < i :: KeyOf(group[j]) in completed
      invariant completed == Updated(before, more, t.cacheKey) && forall p | p in more :: OfGroup(t, p, s, group)
      invariant Fresh(more) == if i == 0 then 0 else 1
      invariant KeysDetermineAnswer(t) && AllAnswer(t, before) ==>
                  AllAnswer(t, completed) && Faithful(more, t)
    {
      var row := group[i];
      assert row in group;
      var p := Prediction(t.cacheKey, row.caseId, row.selector, row.conflictType, t.strip(raw), t.normalize(raw), i > 0);
      if KeysDetermineAnswer(t) && AllAnswer(t, before) {
        OneAnswerForAll(t, completed, row, p);
      }
      UpdatedOnce(before, more, p, t.cacheKey);
      assert OfGroup(t, p, s, group);
      FreshOneMore(more, p);
      completed := completed[KeyOf(row) := p];
      more := more + [p];
    }
  }

  /** The first `done` groups are answered. */
  predicate Done(pending: Pending, done: nat, completed: map<RowKey, Prediction>)
    requires Lists(pending.order, pending.groups.Keys) && done <= |pending.order|
  {
    forall i | 0 <= i < done :: forall row | row in pending.groups[pending.order[i]] :: KeyOf(row) in completed
  }

  /** The line carries the model's answer for one of the signatures asked. */
  ghost predicate OfAsked(t: Task, pending: Pending, asked: seq<Signature>, p: Prediction) {
    exists s | s in asked && s in pending.groups :: OfGroup(t, p, s, pending.groups[s])
  }

  /** One call of the model, and its trace. */
  method Ask(t: Task, s: Signature, ghost before: seq<Signature>) returns (raw: string, ghost calls: seq<Signature>)
    ensures raw == t.model(s) && calls == before + [s]
  {
    raw, calls := t.model(s), before + [s];
  }

  /** One batch of model calls, one call per signature. */
  method PredictBatch(t: Task, pending: Pending, start: nat, stop: nat, before: map<RowKey, Prediction>)
    returns (completed: map<RowKey, Prediction>, newRows: seq<Prediction>, ghost calls: seq<Signature>)
    requires WellGrouped(t, pending) && WellKeyed(t, before) && start <= stop <= |pending.order|
    requires Done(pending, start, before)
    ensures WellKeyed(t, completed) && before.Keys <= completed.Keys && Done(pending, stop, completed)
    ensures calls == pending.order[start..stop]
    ensures completed == Updated(before, newRows, t.cacheKey)
    ensures forall p | p in newRows :: OfAsked(t, pending, calls, p)
    ensures Fresh(newRows) == stop - start
    ensures KeysDetermineAnswer(t) && AllAnswer(t, before) ==>
              AllAnswer(t, completed) && Faithful(newRows, t)
  {
    hide FaithfulLine, AllAnswer, KeysDetermineAnswer, Answers, Updated, OfGroup, Fresh;
    completed, newRows, calls := before, [], [];
    NothingIsFresh();
    NothingUpdated(before, t.cacheKey);
    for i := start to stop
      invariant calls == pending.order[start..i]
      invariant completed == Updated(before, newRows, t.cacheKey)
      invariant forall p | p in newRows :: OfAsked(t, pending, calls, p)
      invariant Fresh(newRows) == i - start
      invariant WellKeyed(t, completed) && before.Keys <= completed.Keys && Done(pending, i, completed)
      invariant KeysDetermineAnswer(t) && AllAnswer(t, before) ==>
                  AllAnswer(t, completed) && Faithful(newRows, t)
    {
      var s := pending.order[i];
      var raw, more;
      raw, calls := Ask(t, s, calls);
      completed, more := PredictGroup(t, s, pending.groups[s], raw, completed);
      UpdatedTwice(before, newRows, more, t.cacheKey);
      FreshConcat(newRows, more);
      assert s in calls;
      newRows := newRows + more;
    }
  }

  /** What the caller relies on to get the model's own answers back. */
  ghost predicate Trustworthy(t: Task, lines: seq<Prediction>) {
    KeysDetermineAnswer(t) && Faithful(lines, t)
  }

  lemma TrustworthyLinesAnswer(t: Task, lines: seq<Prediction>)
    ensures WellKeyed(t, Latest(lines, t.cacheKey))
    ensures Trustworthy(t, lines) ==> AllAnswer(t, Latest(lines, t.cacheKey))
  {
    var completed := Latest(lines, t.cacheKey);
    forall key | key in completed
      ensures LineKey(completed[key]) == key && completed[key] in lines && completed[key].cacheKey == t.cacheKey
    {
      LatestIsALine(lines, t.cacheKey, key);
    }
  }

  /** One prediction per row, under the row's own key. */
  predicate OnePerRow(t: Task, predictions: seq<Prediction>) {
    && |predictions| == |t.rows|
    && (forall i | 0 <= i < |t.rows| :: LineKey(predictions[i]) == KeyOf(t.rows[i]))
    && (forall i, j | 0 <= i < |t.rows| && 0 <= j < |t.rows| && KeyOf(t.rows[i]) == KeyOf(t.rows[j]) ::
          predictions[i] == predictions[j])
  }

  /** Each prediction is what the model says about its row. */
  predicate AllTrue(t: Task, predictions: seq<Prediction>)
    requires |predictions| == |t.rows|
  {
    forall i | 0 <= i < |t.rows| :: Answers(predictions[i], t.rows[i], t)
  }

  /** Every prediction is the last line of its key. */
  predicate AreLatest(t: Task, predictions: seq<Prediction>, latest: map<RowKey, Prediction>)
    requires |predictions| == |t.rows|
  {
    forall i | 0 <= i < |t.rows| :: KeyOf(t.rows[i]) in latest && predictions[i] == latest[KeyOf(t.rows[i])]
  }

  /** A row that has a line already gets that line. */
  predicate KeepsLatest(t: Task, predictions: seq<Prediction>, latest: map<RowKey, Prediction>)
    requires |predictions| == |t.rows|
  {
    forall i | 0 <= i < |t.rows| && KeyOf(t.rows[i]) in latest :: predictions[i] == latest[KeyOf(t.rows[i])]
  }

  /** Classifies the rows, reading and extending the checkpoint; fails exactly for a torn file.

      The file grows by the reused predictions and then, batch by batch, by the answers of the model in the
      order of the calls; when the run ends, each prediction it returns is the last line of its key, and
      predictions that were there before are returned as they were.

      Whatever lines the file held, every row gets a prediction under its own key, and the model is called
      for no signature twice and for none that a row already persisted. If the lines are faithful, all
      predictions are what the model says if and only if rows that share a key get one answer from it;
      and then everything appended, up to any line, can be trusted by a later run. */
  method Classify(t: Task, file: Checkpoint, batchSize: nat)
    returns (result: Result<seq<Prediction>>, ghost reused: seq<Prediction>, ghost trace: seq<Batch>)
    requires batchSize >= 1
    modifies file`lines
    ensures result.Ok? <==> !file.torn
    ensures result.Err? ==> reused == [] && trace == []
    ensures file.lines == old(file.lines) + reused + Appended(trace) && forall b | b in trace :: BatchFits(t, b, batchSize)
    ensures forall p | p in reused :: ReusedLine(t, Latest(old(file.lines), t.cacheKey), p)
    ensures result.Ok? ==> |result.value| == |t.rows| && OnePerRow(t, result.value)
    ensures result.Ok? ==> AreLatest(t, result.value, Latest(file.lines, t.cacheKey))
    ensures result.Ok? ==> KeepsLatest(t, result.value, Latest(old(file.lines), t.cacheKey))
    ensures result.Ok? && AllPersisted(t, Latest(old(file.lines), t.cacheKey)) ==> file.lines == old(file.lines)
    ensures var todo := Signatures(t.rows) - Persisted(t.rows, Latest(old(file.lines), t.cacheKey));
            result.Ok? ==> OnceEach(Asked(trace), todo) && (KeysDetermineSignature(t.rows) ==> Lists(Asked(trace), todo))
    ensures result.Ok? && Faithful(old(file.lines), t) ==> (AllTrue(t, result.value) <==> KeysDetermineAnswer(t))
    ensures Trustworthy(t, old(file.lines)) ==> Trustworthy(t, file.lines)
  {
    hide FaithfulLine, KeysDetermineSignature, KeysDetermineAnswer, Latest, Updated, Answers, WellGrouped, Faithful,
         Lists, OnceEach, Waits, Persisted, Signatures, Asked, Appended, BatchFits, AllAnswer, AllTrue, OnePerRow,
         AreLatest, KeepsLatest, AllPersisted, WellKeyed, WellIndexed, KnownAnswer, Extends;
    ghost var start := file.lines;
    reused, trace := [], [];
    NoBatches();
    assert start == start + [] + [];
    var read := ReadCompleted(t, file);
    if read.Err? {
      return Err(read.error), [], [];
    }
    ghost var before := read.value;
    TrustworthyLinesAnswer(t, file.lines);
    var known := IndexBySignature(t, read.value);
    var completed, again, pending := ReuseOrGroup(t, read.value, known);
    reused := again;
    AppendedAreFaithful(t, file.lines, again);
    LatestAppend(file.lines, again, t.cacheKey);
    if again != [] {
      file.Append(again);
    }
    assert file.lines == start + again;
    completed, trace := AnswerPending(t, file, pending, completed, batchSize);
    PendingOnce(t, pending, Signatures(t.rows) - known.Keys);
    var predictions := LookUpAll(t, completed);
    Concluded(t, completed, before, predictions);
    if AllPersisted(t, before) {
      NothingAppended(t, trace, batchSize);
    }
    result := Ok(predictions);
  }

  function LookUpAll(t: Task, completed: map<RowKey, Prediction>): seq<Prediction>
    requires AllPersisted(t, completed)
  {
    seq(|t.rows|, i requires 0 <= i < |t.rows| => completed[KeyOf(t.rows[i])])
  }

  lemma Concluded(t: Task, completed: map<RowKey, Prediction>, before: map<RowKey, Prediction>, predictions: seq<Prediction>)
    requires AllPersisted(t, completed) && WellKeyed(t, completed) && Extends(before, completed)
    requires predictions == LookUpAll(t, completed)
    ensures OnePerRow(t, predictions) && AreLatest(t, predictions, completed) && KeepsLatest(t, predictions, before)
    ensures AllAnswer(t, completed) <==> AllTrue(t, predictions)
    ensures AllTrue(t, predictions) ==> KeysDetermineAnswer(t)
  {
    hide Answers, KeysDetermineAnswer;
    assert forall i | 0 <= i < |t.rows| :: t.rows[i] in t.rows;
    forall row | row in t.rows ensures exists i :: 0 <= i < |t.rows| && t.rows[i] == row {
    }
    if AllTrue(t, predictions) {
      SharedKeysNeedOneAnswer(t, predictions);
      forall row | row in t.rows ensures Answers(completed[KeyOf(row)], row, t) {
        var i :| 0 <= i < |t.rows| && t.rows[i] == row;
      }
    }
  }

  lemma PendingOnce(t: Task, pending: Pending, among: set<Signature>)
    requires WellGrouped(t, pending) && pending.groups.Keys <= among
    ensures OnceEach(pending.order, among)
    ensures pending.groups.Keys == among ==> Lists(pending.order, among)
  {
    ListsOnce(pending.order, pending.groups.Keys, among);
  }

  /** Batches that ask nothing append nothing. */
  lemma {:induction false} NothingAppended(t: Task, trace: seq<Batch>, batchSize: nat)
    requires Asked(trace) == [] && forall b | b in trace :: BatchFits(t, b, batchSize)
    ensures Appended(trace) == []
  {
    if trace != [] {
      var init, last := trace[..|trace| - 1], trace[|trace| - 1];
      assert trace == init + [last];
      NothingAppended(t, init, batchSize);
      assert last in trace;
      if last.lines != [] {
        AskedForLine(t, last, last.lines[0]);
      }
    }
  }

  lemma AskedForLine(t: Task, b: Batch, p: Prediction)
    requires LineFits(t, b, p)
    ensures b.asked != []
  {
  }

  lemma NoMoreThan(order: seq<Signature>, among: set<Signature>)
    requires OnceEach(order, among)
    ensures |order| <= |among|
  {
    DifferentCount(order);
    SubsetCardinality(Members(order), among);
  }

  /** A run over a file that a run has completed asks the model nothing, changes nothing and returns the same. */
  method ClassifyAgain(t: Task, file: Checkpoint, batchSize: nat)
    returns (first: Result<seq<Prediction>>, second: Result<seq<Prediction>>, ghost between: seq<Prediction>,
             ghost calls: seq<Signature>)
    requires batchSize >= 1
    modifies file`lines
    ensures first.Ok? ==> second == first && calls == []
    ensures file.lines == between && old(file.lines) <= between
    ensures first.Ok? ==> Persisted(t.rows, Latest(between, t.cacheKey)) == Signatures(t.rows)
  {
    hide *;
    NoBatches();
    ghost var reused, trace;
    first, reused, trace := Classify(t, file, batchSize);
    between := file.lines;
    if first.Ok? {
      NothingLeftToDo(t, first.value, Latest(between, t.cacheKey));
    }
    second, reused, trace := Classify(t, file, batchSize);
    calls := Asked(trace);
    if first.Ok? {
      NoMoreThan(calls, Signatures(t.rows) - Persisted(t.rows, Latest(between, t.cacheKey)));
      SameLines(t, first.value, second.value, Latest(between, t.cacheKey));
    }
  }

  lemma NothingLeftToDo(t: Task, predictions: seq<Prediction>, latest: map<RowKey, Prediction>)
    requires |predictions| == |t.rows| && AreLatest(t, predictions, latest)
    ensures AllPersisted(t, latest) && Persisted(t.rows, latest) == Signatures(t.rows)
    ensures |Signatures(t.rows) - Persisted(t.rows, latest)| == 0
  {
    assert AllPersisted(t, latest);
  }

  lemma SameLines(t: Task, first: seq<Prediction>, second: seq<Prediction>, latest: map<RowKey, Prediction>)
    requires |first| == |second| == |t.rows| && AreLatest(t, first, latest) && KeepsLatest(t, second, latest)
    ensures first == second
  {
  }

  /** Rows with one key share their prediction, so all of them can only be right when the model answers
      them alike. */
  lemma SharedKeysNeedOneAnswer(t: Task, predictions: seq<Prediction>)
    requires OnePerRow(t, predictions) && AllTrue(t, predictions)
    ensures KeysDetermineAnswer(t)
  {
    forall r, s | r in t.rows && s in t.rows && KeyOf(r) == KeyOf(s)
      ensures t.strip(t.model(SignatureOf(r))) == t.strip(t.model(SignatureOf(s)))
      ensures t.normalize(t.model(SignatureOf(r))) == t.normalize(t.model(SignatureOf(s)))
    {
      var i :| 0 <= i < |t.rows| && t.rows[i] == r;
      var j :| 0 <= j < |t.rows| && t.rows[j] == s;
      assert Answers(predictions[i], r, t) && Answers(predictions[j], s, t);
    }
  }

  lemma AppendedAreFaithful(t: Task, lines: seq<Prediction>, more: seq<Prediction>)
    ensures Trustworthy(t, lines) && Faithful(more, t) ==>
              Trustworthy(t, lines + more)
    ensures lines + [] == lines
  {
  }

  /** A batch: what the model was asked, and the lines then appended to the file. */
  datatype Batch = Batch(asked: seq<Signature>, lines: seq<Prediction>)

  function Asked(trace: seq<Batch>): seq<Signature> {
    if trace == [] then [] else Asked(trace[..|trace| - 1]) + trace[|trace| - 1].asked
  }

  function Appended(trace: seq<Batch>): seq<Prediction> {
    if trace == [] then [] else Appended(trace[..|trace| - 1]) + trace[|trace| - 1].lines
  }

  /** The batch asks no more than its size, and every line answers something that it asked, under the key of
      a row with that signature; as many lines as questions are not marked as reused. */
  ghost predicate BatchFits(t: Task, b: Batch, batchSize: nat) {
    && |b.asked| <= batchSize && Fresh(b.lines) == |b.asked|
    && forall p | p in b.lines :: LineFits(t, b, p)
  }

  ghost predicate LineFits(t: Task, b: Batch, p: Prediction) {
    exists row | row in t.rows :: AnswersAsked(t, b, p, row)
  }

  ghost predicate AnswersAsked(t: Task, b: Batch, p: Prediction, row: Row) {
    && LineKey(p) == KeyOf(row) && p.cacheKey == t.cacheKey && p.goldLabel == row.conflictType
    && SignatureOf(row) in b.asked && Answers(p, row, t)
  }

  lemma OneMoreBatch(trace: seq<Batch>, b: Batch)
    ensures Asked(trace + [b]) == Asked(trace) + b.asked && Appended(trace + [b]) == Appended(trace) + b.lines
  {
    assert (trace + [b])[..|trace|] == trace;
  }

  lemma AskedBatchFits(t: Task, pending: Pending, b: Batch, batchSize: nat)
    requires WellGrouped(t, pending) && |b.asked| <= batchSize && Fresh(b.lines) == |b.asked|
    requires forall p | p in b.lines :: OfAsked(t, pending, b.asked, p)
    ensures BatchFits(t, b, batchSize)
  {
    forall p | p in b.lines ensures LineFits(t, b, p) {
      var s :| s in b.asked && s in pending.groups && OfGroup(t, p, s, pending.groups[s]);
      var row :| row in pending.groups[s] && LineKey(p) == KeyOf(row) && p.goldLabel == row.conflictType;
      assert AnswersAsked(t, b, p, row);
    }
  }

  /** Only the keys of waiting rows change. */
  lemma {:induction false} OthersStay(t: Task, pending: Pending, fixed: map<RowKey, Prediction>,
                                      completed: map<RowKey, Prediction>, asked: seq<Signature>, more: seq<Prediction>)
    requires forall row | Waits(pending, row) :: KeyOf(row) !in fixed
    requires Extends(fixed, completed) && forall p | p in more :: OfAsked(t, pending, asked, p)
    requires WellGrouped(t, pending)
    ensures Extends(fixed, Updated(completed, more, t.cacheKey))
  {
    if more != [] {
      var init, last := more[..|more| - 1], more[|more| - 1];
      OthersStay(t, pending, fixed, completed, asked, init);
      assert OfAsked(t, pending, asked, last);
      var s :| s in asked && s in pending.groups && OfGroup(t, last, s, pending.groups[s]);
      var row :| row in pending.groups[s] && LineKey(last) == KeyOf(row);
      assert Waits(pending, row);
    }
  }

  /** The model calls of a run, batch by batch, each batch appended to the file when it is done. */
  method AnswerPending(t: Task, file: Checkpoint, pending: Pending, before: map<RowKey, Prediction>, batchSize: nat)
    returns (completed: map<RowKey, Prediction>, ghost trace: seq<Batch>)
    requires batchSize >= 1 && WellGrouped(t, pending) && WellKeyed(t, before)
    requires forall row | row in t.rows :: KeyOf(row) in before || Waits(pending, row)
    requires !file.torn && before == Latest(file.lines, t.cacheKey)
    modifies file`lines
    ensures WellKeyed(t, completed) && AllPersisted(t, completed)
    ensures Asked(trace) == pending.order && forall b | b in trace :: BatchFits(t, b, batchSize)
    ensures file.lines == old(file.lines) + Appended(trace)
    ensures completed == Latest(file.lines, t.cacheKey)
    ensures forall fixed | Extends(fixed, before) && (forall row | Waits(pending, row) :: KeyOf(row) !in fixed) ::
      Extends(fixed, completed)
    ensures AllAnswer(t, before) && Trustworthy(t, old(file.lines)) ==>
              AllAnswer(t, completed) && Trustworthy(t, file.lines)
  {
    hide FaithfulLine, AllAnswer, KeysDetermineAnswer, Answers, Faithful, Latest, Updated, Asked, Appended, BatchFits,
         OfAsked, Extends, Waits;
    completed, trace := before, [];
    NoBatches();
    ghost var start := file.lines;
    var done := 0;
    while done < |pending.order|
      invariant 0 <= done <= |pending.order| && Asked(trace) == pending.order[..done]
      invariant forall b | b in trace :: BatchFits(t, b, batchSize)
      invariant file.lines == start + Appended(trace) && completed == Latest(file.lines, t.cacheKey)
      invariant WellKeyed(t, completed) && before.Keys <= completed.Keys
      invariant forall fixed | Extends(fixed, before) && (forall row | Waits(pending, row) :: KeyOf(row) !in fixed) ::
        Extends(fixed, completed)
      invariant Done(pending, done, completed)
      invariant AllAnswer(t, before) && Trustworthy(t, start) ==> AllAnswer(t, completed) && Trustworthy(t, file.lines)
    {
      var stop := if done + batchSize < |pending.order| then done + batchSize else |pending.order|;
      var newRows;
      ghost var asked;
      ghost var earlier := completed;
      completed, newRows, asked := PredictBatch(t, pending, done, stop, completed);
      AppendedAreFaithful(t, file.lines, newRows);
      LatestAppend(file.lines, newRows, t.cacheKey);
      ghost var batch := Batch(asked, newRows);
      AskedBatchFits(t, pending, batch, batchSize);
      OneMoreBatch(trace, batch);
      forall fixed | Extends(fixed, before) && (forall row | Waits(pending, row) :: KeyOf(row) !in fixed)
        ensures Extends(fixed, completed)
      {
        OthersStay(t, pending, fixed, earlier, asked, newRows);
      }
      trace := trace + [batch];
      file.Append(newRows);
      done := stop;
    }
    forall row | row in t.rows ensures KeyOf(row) in completed {
      if Waits(pending, row) {
        WaitingIsListed(t, pending, row);
      }
    }
  }

  lemma NoBatches()
    ensures Asked([]) == [] && Appended([]) == []
  {
  }

  lemma WaitingIsListed(t: Task, pending: Pending, row: Row)
    requires WellGrouped(t, pending) && Waits(pending, row)
    ensures SignatureOf(row) in pending.order && row in pending.groups[SignatureOf(row)]
  {
  }

  /** How a run was interrupted: so many of its appended lines reached the file, and perhaps a part of the
      next one. */
  datatype Interruption = Interruption(lines: nat, tears: bool)

  /** Runs that were interrupted and a last one that was not. The last one fails only if a line was torn;
      from a trustworthy file it answers every row. */
  method ResumeAfterInterruptions(t: Task, file: Checkpoint, history: seq<Interruption>, batchSize: nat)
    returns (result: Result<seq<Prediction>>)
    requires batchSize >= 1
    modifies file
    ensures result.Ok? <==> !file.torn
    ensures old(file.torn) ==> result.Err?
    ensures result.Err? ==> old(file.torn) || exists i :: 0 <= i < |history| && history[i].tears
    ensures result.Ok? ==> OnePerRow(t, result.value)
    ensures Trustworthy(t, old(file.lines)) ==> Trustworthy(t, file.lines)
    ensures result.Ok? && Trustworthy(t, old(file.lines)) ==> AllTrue(t, result.value)
  {
    ghost var trusted := Trustworthy(t, file.lines);
    for run := 0 to |history|
      invariant trusted ==> Trustworthy(t, file.lines)
      invariant old(file.torn) ==> file.torn
      invariant file.torn ==> old(file.torn) || exists i :: 0 <= i < run && history[i].tears
    {
      var written := |file.lines| + history[run].lines;
      var lost, _, _ := Classify(t, file, batchSize);
      if written < |file.lines| {
        file.lines := file.lines[..written];
        file.torn := history[run].tears;
      }
    }
    ghost var reused, trace;
    result, reused, trace := Classify(t, file, batchSize);
  }

  // ---------------------------------------------------------------- seeding from earlier predictions

  /** The last reference prediction of each key. */
  function ByKey(predictions: seq<Prediction>): map<RowKey, Prediction> {
    if predictions == [] then map[]
    else ByKey(predictions[..|predictions| - 1])[LineKey(predictions[|predictions| - 1]) := predictions[|predictions| - 1]]
  }

  predicate SameAnswer(p: Prediction, q: Prediction) {
    p.raw == q.raw && p.predicted == q.predicted
  }

  /** Reference rows for one signature never carry different predictions. */
  predicate Consistent(references: seq<Row>, byKey: map<RowKey, Prediction>) {
    forall r, s | r in references && s in references && KeyOf(r) in byKey && KeyOf(s) in byKey
                  && SignatureOf(r) == SignatureOf(s) :: SameAnswer(byKey[KeyOf(r)], byKey[KeyOf(s)])
  }

  ghost predicate ComesFrom(p: Prediction, s: Signature, references: seq<Row>, byKey: map<RowKey, Prediction>) {
    exists row :: row in references && KeyOf(row) in byKey && SignatureOf(row) == s && p == byKey[KeyOf(row)]
  }

  /** The index holds, for every signature a reference row predicts, the answer of all such rows. */
  ghost predicate Indexes(index: map<Signature, Prediction>, references: seq<Row>, byKey: map<RowKey, Prediction>) {
    && index.Keys == Persisted(references, byKey)
    && (forall row | row in references && KeyOf(row) in byKey :: SameAnswer(index[SignatureOf(row)], byKey[KeyOf(row)]))
    && (forall s | s in index :: ComesFrom(index[s], s, references, byKey))
  }

  lemma IndexStep(index: map<Signature, Prediction>, references: seq<Row>, byKey: map<RowKey, Prediction>, row: Row)
    requires Consistent(references, byKey) && Indexes(index, references, byKey)
    ensures KeyOf(row) !in byKey ==>
              Consistent(references + [row], byKey) && Indexes(index, references + [row], byKey)
    ensures KeyOf(row) in byKey && SignatureOf(row) !in index ==>
              Consistent(references + [row], byKey)
              && Indexes(index[SignatureOf(row) := byKey[KeyOf(row)]], references + [row], byKey)
    ensures KeyOf(row) in byKey && SignatureOf(row) in index && SameAnswer(index[SignatureOf(row)], byKey[KeyOf(row)]) ==>
              Consistent(references + [row], byKey) && Indexes(index, references + [row], byKey)
    ensures KeyOf(row) in byKey && SignatureOf(row) in index && !SameAnswer(index[SignatureOf(row)], byKey[KeyOf(row)]) ==>
              !Consistent(references + [row], byKey)
  {
    assert forall r :: r in references + [row] <==> r in references || r == row;
    if KeyOf(row) in byKey && SignatureOf(row) in index {
      assert ComesFrom(index[SignatureOf(row)], SignatureOf(row), references, byKey);
    }
    StillComesFrom(index, references, byKey, row);
  }

  lemma StillComesFrom(index: map<Signature, Prediction>, references: seq<Row>, byKey: map<RowKey, Prediction>, row: Row)
    requires forall s | s in index :: ComesFrom(index[s], s, references, byKey)
    ensures forall s | s in index :: ComesFrom(index[s], s, references + [row], byKey)
    ensures KeyOf(row) in byKey ==> ComesFrom(byKey[KeyOf(row)], SignatureOf(row), references + [row], byKey)
  {
    assert forall r :: r in references + [row] <==> r in references || r == row;
    forall s | s in index ensures ComesFrom(index[s], s, references + [row], byKey) {
      assert ComesFrom(index[s], s, references, byKey);
    }
  }

  method IndexReferences(references: seq<Row>, byKey: map<RowKey, Prediction>) returns (index: Result<map<Signature, Prediction>>)
    ensures index.Ok? <==> Consistent(references, byKey)
    ensures index.Ok? ==> Indexes(index.value, references, byKey)
  {
    var found: map<Signature, Prediction> := map[];
    for i := 0 to |references|
      invariant Consistent(references[..i], byKey) && Indexes(found, references[..i], byKey)
    {
      var row := references[i];
      IndexStep(found, references[..i], byKey, row);
      assert references[..i + 1] == references[..i] + [row];
      hide Consistent, Indexes;
      if KeyOf(row) !in byKey {
        continue;
      }
      var p := byKey[KeyOf(row)];
      if SignatureOf(row) in found {
        if found[SignatureOf(row)].raw != p.raw || found[SignatureOf(row)].predicted != p.predicted {
          InconsistentPrefix(references, byKey, i + 1);
          return Err("inconsistent reference predictions");
        }
      } else {
        found := found[SignatureOf(row) := p];
      }
    }
    assert references[..|references|] == references;
    index := Ok(found);
  }

  lemma InconsistentPrefix(references: seq<Row>, byKey: map<RowKey, Prediction>, n: nat)
    requires n <= |references| && !Consistent(references[..n], byKey)
    ensures !Consistent(references, byKey)
  {
  }

  function Seed(row: Row, p: Prediction, cacheKey: string): Prediction {
    Prediction(cacheKey, row.caseId, row.selector, row.conflictType, p.raw, p.predicted, true)
  }

  /** The seeds of the rows whose signature is indexed, in row order. */
  function Seeds(rows: seq<Row>, index: map<Signature, Prediction>, cacheKey: string): seq<Prediction> {
    if rows == [] then []
    else
      var init, row := Seeds(rows[..|rows| - 1], index, cacheKey), rows[|rows| - 1];
      if SignatureOf(row) in index then init + [Seed(row, index[SignatureOf(row)], cacheKey)] else init
  }

  method SeedEquivalentPredictions(rows: seq<Row>, references: seq<Row>, predictions: seq<Prediction>, cacheKey: string)
    returns (seeds: Result<seq<Prediction>>)
    ensures seeds.Ok? <==> Consistent(references, ByKey(predictions))
    ensures seeds.Ok? ==> exists index :: Indexes(index, references, ByKey(predictions))
                                          && seeds.value == Seeds(rows, index, cacheKey)
  {
    var byKey: map<RowKey, Prediction> := map[];
    for i := 0 to |predictions|
      invariant byKey == ByKey(predictions[..i])
    {
      assert predictions[..i + 1][..i] == predictions[..i];
      byKey := byKey[LineKey(predictions[i]) := predictions[i]];
    }
    assert predictions[..|predictions|] == predictions;
    hide Indexes, Consistent, ByKey;
    var index := IndexReferences(references, byKey);
    if index.Err? {
      return Err(index.error);
    }
    var out: seq<Prediction> := [];
    for i := 0 to |rows|
      invariant out == Seeds(rows[..i], index.value, cacheKey)
    {
      assert rows[..i + 1][..i] == rows[..i];
      if SignatureOf(rows[i]) in index.value {
        out := out + [Seed(rows[i], index.value[SignatureOf(rows[i])], cacheKey)];
      }
    }
    assert rows[..|rows|] == rows;
    seeds := Ok(out);
  }

  /** Every reference prediction is what the model says about its reference row. */
  ghost predicate ReferencesAnswer(t: Task, references: seq<Row>, byKey: map<RowKey, Prediction>) {
    forall row | row in references && KeyOf(row) in byKey :: Answers(byKey[KeyOf(row)], row, t)
  }

  ghost predicate SeedsRow(p: Prediction, rows: seq<Row>, index: map<Signature, Prediction>, cacheKey: string) {
    exists row :: row in rows && SeedsFrom(p, row, index, cacheKey)
  }

  /** The seed has the row's key and label and the reference's answer, and is marked as reused. */
  predicate SeedsFrom(p: Prediction, row: Row, index: map<Signature, Prediction>, cacheKey: string) {
    && SignatureOf(row) in index
    && p.cacheKey == cacheKey && p.caseId == row.caseId && p.selector == row.selector && p.goldLabel == row.conflictType
    && p.raw == index[SignatureOf(row)].raw && p.predicted == index[SignatureOf(row)].predicted && p.reused
  }

  /** The seeds are those of the rows whose case and ordered evidence has a reference prediction. */
  lemma {:induction false} SeedMember(rows: seq<Row>, index: map<Signature, Prediction>, cacheKey: string, p: Prediction)
    ensures p in Seeds(rows, index, cacheKey) <==> SeedsRow(p, rows, index, cacheKey)
  {
    if rows != [] {
      var init, row := rows[..|rows| - 1], rows[|rows| - 1];
      SeedMember(init, index, cacheKey, p);
      assert rows == init + [row];
      SeedsFromIff(p, row, index, cacheKey);
      hide SeedsFrom, Seed;
      if SeedsRow(p, rows, index, cacheKey) {
        var r :| r in rows && SeedsFrom(p, r, index, cacheKey);
        assert r in init || r == row;
      }
      if SeedsRow(p, init, index, cacheKey) {
        var r :| r in init && SeedsFrom(p, r, index, cacheKey);
        assert r in rows;
      }
      if SeedsFrom(p, row, index, cacheKey) {
        assert row in rows;
      }
    }
  }

  lemma SeedsFromIff(p: Prediction, row: Row, index: map<Signature, Prediction>, cacheKey: string)
    ensures SeedsFrom(p, row, index, cacheKey) <==>
      SignatureOf(row) in index && p == Seed(row, index[SignatureOf(row)], cacheKey)
  {
  }

  /** What truthful references seed can be trusted like a checkpoint. */
  lemma SeedsAreFaithful(t: Task, references: seq<Row>, byKey: map<RowKey, Prediction>, index: map<Signature, Prediction>)
    requires Indexes(index, references, byKey)
    requires KeysDetermineAnswer(t) && ReferencesAnswer(t, references, byKey)
    ensures Trustworthy(t, Seeds(t.rows, index, t.cacheKey))
  {
    forall p | p in Seeds(t.rows, index, t.cacheKey) ensures FaithfulLine(p, t) {
      SeedMember(t.rows, index, t.cacheKey, p);
      var row :| row in t.rows && SeedsFrom(p, row, index, t.cacheKey);
      assert ComesFrom(index[SignatureOf(row)], SignatureOf(row), references, byKey);
      hide FaithfulLine;
      OneAnswerForAll(t, map[], row, p);
    }
  }

  /** Predictions that are right about their rows can be trusted as a file. */
  lemma TruePredictionsAreFaithful(t: Task, predictions: seq<Prediction>)
    requires KeysDetermineAnswer(t) && |predictions| == |t.rows| && AllTrue(t, predictions)
    requires forall i | 0 <= i < |t.rows| :: LineKey(predictions[i]) == KeyOf(t.rows[i])
    ensures Trustworthy(t, predictions)
  {
    hide FaithfulLine, KeysDetermineAnswer, Answers;
    forall p | p in predictions ensures FaithfulLine(p, t) {
      var i :| 0 <= i < |predictions| && predictions[i] == p;
      assert t.rows[i] in t.rows;
      OneAnswerForAll(t, map[], t.rows[i], p);
    }
  }

  /** The ablation run: seeds, overlaid by what an earlier run left behind, become the checkpoint; the
      model is asked only if some row is still open; and the answers replace the file. Seeding never
      changes an answer. */
  method SeededRun(t: Task, references: seq<Row>, predictions: seq<Prediction>, file: Checkpoint, batchSize: nat)
    returns (answers: Result<seq<Prediction>>)
    requires batchSize >= 1
    modifies file
    ensures answers.Ok? <==> Consistent(references, ByKey(predictions)) && !old(file.torn)
    ensures answers.Err? ==> file.lines == old(file.lines) && file.torn == old(file.torn)
    ensures answers.Ok? ==> |answers.value| == |t.rows| && file.lines == answers.value && !file.torn
    ensures answers.Ok? ==> KeepsLatest(t, answers.value, Latest(old(file.lines), t.cacheKey))
    ensures answers.Ok? && Trustworthy(t, old(file.lines)) && ReferencesAnswer(t, references, ByKey(predictions)) ==>
              AllTrue(t, answers.value) && Trustworthy(t, file.lines)
  {
    hide Consistent, KeysDetermineAnswer, Answers, ByKey, Seeds, Indexes, Latest, FaithfulLine, ReferencesAnswer,
         AllTrue, KeepsLatest, AreLatest, AllAnswer;
    var seeds := SeedEquivalentPredictions(t.rows, references, predictions, t.cacheKey);
    if seeds.Err? {
      return Err(seeds.error);
    }
    if file.torn {
      return Err("not a JSON line");
    }
    ghost var trusted := Trustworthy(t, file.lines) && ReferencesAnswer(t, references, ByKey(predictions));
    if trusted {
      ghost var index :| Indexes(index, references, ByKey(predictions)) && seeds.value == Seeds(t.rows, index, t.cacheKey);
      SeedsAreFaithful(t, references, ByKey(predictions), index);
    }
    var all := seeds.value + file.lines;
    var partial, open := Overlay(t, all);
    ghost var cached := Latest(file.lines, t.cacheKey);
    CachedLinesWin(t, seeds.value, file.lines, partial);
    file.lines := partial;
    TrustworthyLinesAnswer(t, all);
    var out := partial;
    if open {
      var result, _, _ := Classify(t, file, batchSize);
      out := result.value;
      KeepsMore(t, out, cached, Latest(partial, t.cacheKey));
    } else {
      KeepsMore(t, out, cached, Latest(all, t.cacheKey));
    }
    if trusted {
      TruePredictionsAreFaithful(t, out);
    }
    file.lines := out;
    answers := Ok(out);
  }

  /** One line for each row that has any: the last line of its key. */
  ghost predicate OverlayOf(t: Task, all: seq<Prediction>, partial: seq<Prediction>) {
    && (forall p | p in partial :: p.cacheKey == t.cacheKey && LineKey(p) in Latest(all, t.cacheKey)
          && p == Latest(all, t.cacheKey)[LineKey(p)])
    && forall row | row in t.rows && KeyOf(row) in Latest(all, t.cacheKey) ::
         Latest(all, t.cacheKey)[KeyOf(row)] in partial && LineKey(Latest(all, t.cacheKey)[KeyOf(row)]) == KeyOf(row)
  }

  lemma {:induction false} LaterLinesWin(a: seq<Prediction>, b: seq<Prediction>, cacheKey: string, key: RowKey)
    requires key in Latest(b, cacheKey)
    ensures key in Latest(a + b, cacheKey) && Latest(a + b, cacheKey)[key] == Latest(b, cacheKey)[key]
  {
    if b != [] {
      var init := b[..|b| - 1];
      assert (a + b)[..|a + b| - 1] == a + init;
      if key in Latest(init, cacheKey) {
        LaterLinesWin(a, init, cacheKey, key);
      }
    }
  }

  /** Lines that the file held come before seeds. */
  lemma CachedLinesWin(t: Task, seeds: seq<Prediction>, lines: seq<Prediction>, partial: seq<Prediction>)
    requires OverlayOf(t, seeds + lines, partial)
    ensures Agrees(t, Latest(lines, t.cacheKey), Latest(partial, t.cacheKey))
    ensures Agrees(t, Latest(lines, t.cacheKey), Latest(seeds + lines, t.cacheKey))
  {
    hide Latest;
    var all := Latest(seeds + lines, t.cacheKey);
    forall row | row in t.rows && KeyOf(row) in Latest(lines, t.cacheKey)
      ensures KeyOf(row) in all && all[KeyOf(row)] == Latest(lines, t.cacheKey)[KeyOf(row)]
      ensures KeyOf(row) in Latest(partial, t.cacheKey) && Latest(partial, t.cacheKey)[KeyOf(row)] == all[KeyOf(row)]
    {
      LaterLinesWin(seeds, lines, t.cacheKey, KeyOf(row));
      LatestIsALine(partial, t.cacheKey, KeyOf(row));
    }
  }

  /** What rows find in the first dictionary they find in the second. */
  predicate Agrees(t: Task, some: map<RowKey, Prediction>, more: map<RowKey, Prediction>) {
    forall row | row in t.rows && KeyOf(row) in some :: KeyOf(row) in more && more[KeyOf(row)] == some[KeyOf(row)]
  }

  lemma KeepsMore(t: Task, predictions: seq<Prediction>, some: map<RowKey, Prediction>, more: map<RowKey, Prediction>)
    requires |predictions| == |t.rows| && KeepsLatest(t, predictions, more) && Agrees(t, some, more)
    ensures KeepsLatest(t, predictions, some)
  {
    assert forall i | 0 <= i < |t.rows| :: t.rows[i] in t.rows;
  }

  /** The rows that have a prediction among some lines, and whether some row has none. */
  method Overlay(t: Task, all: seq<Prediction>) returns (partial: seq<Prediction>, open: bool)
    ensures forall p | p in partial :: p in all
    ensures OverlayOf(t, all, partial)
    ensures !open ==> |partial| == |t.rows| && KeepsLatest(t, partial, Latest(all, t.cacheKey))
    ensures !open ==> |partial| == |t.rows|
    ensures !open ==> forall i | 0 <= i < |t.rows| :: LineKey(partial[i]) == KeyOf(t.rows[i])
    ensures !open && AllAnswer(t, Latest(all, t.cacheKey)) ==> AllTrue(t, partial)
  {
    hide Answers, Latest;
    var completed := Latest(all, t.cacheKey);
    partial, open := [], false;
    for i := 0 to |t.rows|
      invariant forall p | p in partial :: p in all && p.cacheKey == t.cacheKey
      invariant forall p | p in partial :: LineKey(p) in completed && p == completed[LineKey(p)]
      invariant forall j | 0 <= j < i && KeyOf(t.rows[j]) in completed ::
        completed[KeyOf(t.rows[j])] in partial && LineKey(completed[KeyOf(t.rows[j])]) == KeyOf(t.rows[j])
      invariant !open ==> |partial| == i
      invariant !open ==> forall j | 0 <= j < i ::
        KeyOf(t.rows[j]) in completed && partial[j] == completed[KeyOf(t.rows[j])] && LineKey(partial[j]) == KeyOf(t.rows[j])
    {
      if KeyOf(t.rows[i]) in completed {
        LatestIsALine(all, t.cacheKey, KeyOf(t.rows[i]));
        partial := partial + [completed[KeyOf(t.rows[i])]];
      } else {
        open := true;
      }
    }
    assert forall i | 0 <= i < |t.rows| :: t.rows[i] in t.rows;
  }
}
