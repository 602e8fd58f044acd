/** The shadow migration to PostGIS (flood_system/postgis_migration.py): which source rows are projected,
    the upsert of the projected records, and the reconciliation of source and target.

    Digests are ideal: two are equal when the listings they are taken of are equal. */
module PostgisMigration {
  import opened Ordering

  // ---------------------------------------------------------------- projecting the source rows

  /** What a validated row defines for the rows after it. */
  datatype Role = Event(event: string, flag: bool) | Document(version: string, flag: bool) | Other

  /** A row that opened and validated. `inObject` and `inRecord` are the flags of its nested models;
      `complete` says that the columns of the record convert. */
  datatype Content = Content(role: Role, own: Option<bool>, inObject: Option<bool>, inRecord: Option<bool>,
                             document: string, event: string, hash: string, body: string, complete: bool)

  datatype Source = Source(kind: string, id: string, cipher: string, content: Option<Content>)

  datatype Record = Record(kind: string, id: string, hash: string, body: string)

  datatype Note = Note(kind: string, id: string, cipher: string)

  /** The flag of the last event row with this identifier. */
  function EventFlag(rows: seq<Source>, event: string): Option<bool> {
    if rows == [] then None
    else
      var last := rows[|rows| - 1];
      if last.content.Some? && last.content.value.role.Event? && last.content.value.role.event == event
      then Some(last.content.value.role.flag)
      else EventFlag(rows[..|rows| - 1], event)
  }

  function DocumentFlag(rows: seq<Source>, version: string): Option<bool> {
    if rows == [] then None
    else
      var last := rows[|rows| - 1];
      if last.content.Some? && last.content.value.role.Document? && last.content.value.role.version == version
      then Some(last.content.value.role.flag)
      else DocumentFlag(rows[..|rows| - 1], version)
  }

  function OrElse(flag: Option<bool>, other: Option<bool>): Option<bool> {
    if flag.Some? then flag else other
  }

  /** Is the row simulated, given the rows before it? Its own word first, then that of its nested models,
      of its document and of its event; a row nobody speaks for is not. */
  predicate Simulated(before: seq<Source>, c: Content) {
    match c.role
    case Event(_, flag) => flag
    case Document(_, flag) => flag
    case Other =>
      var stated := OrElse(c.own, OrElse(c.inObject, c.inRecord));
      OrElse(OrElse(stated, DocumentFlag(before, c.document)), EventFlag(before, c.event)) == Some(true)
  }

  predicate Projects(before: seq<Source>, row: Source) {
    row.content.Some? && row.content.value.complete && Simulated(before, row.content.value)
  }

  function ToRecord(row: Source): Record
    requires row.content.Some?
  {
    Record(row.kind, row.id, row.content.value.hash, row.content.value.body)
  }

  function Projected(rows: seq<Source>): seq<Record> {
    if rows == [] then []
    else
      var front, last := rows[..|rows| - 1], rows[|rows| - 1];
      if Projects(front, last) then Projected(front) + [ToRecord(last)] else Projected(front)
  }

  function Quarantined(rows: seq<Source>): seq<Note> {
    if rows == [] then []
    else
      var front, last := rows[..|rows| - 1], rows[|rows| - 1];
      if Projects(front, last) then Quarantined(front) else Quarantined(front) + [Note(last.kind, last.id, last.cipher)]
  }

  // What it takes to be projected, by the rows before: the flag of the row's own models, else that of the
  // last row of its document, else that of the last row of its event, and never silence.

  /** The first flag that the row, its object or its record states. */
  predicate States(c: Content, flag: bool) {
    || c.own == Some(flag)
    || (c.own == None && c.inObject == Some(flag))
    || (c.own == None && c.inObject == None && c.inRecord == Some(flag))
  }

  predicate StatesNothing(c: Content) {
    c.own == None && c.inObject == None && c.inRecord == None
  }

  predicate IsDocumentRow(rows: seq<Source>, k: nat, version: string) {
    k < |rows| && rows[k].content.Some? && rows[k].content.value.role.Document?
    && rows[k].content.value.role.version == version
  }

  predicate IsEventRow(rows: seq<Source>, k: nat, event: string) {
    k < |rows| && rows[k].content.Some? && rows[k].content.value.role.Event?
    && rows[k].content.value.role.event == event
  }

  predicate IsLastDocument(rows: seq<Source>, i: nat, version: string, k: nat) {
    k < i && IsDocumentRow(rows, k, version) && forall m: nat | k < m < i :: !IsDocumentRow(rows, m, version)
  }

  predicate IsLastEvent(rows: seq<Source>, i: nat, event: string, k: nat) {
    k < i && IsEventRow(rows, k, event) && forall m: nat | k < m < i :: !IsEventRow(rows, m, event)
  }

  ghost predicate DocumentSays(rows: seq<Source>, i: nat, version: string, flag: bool) {
    exists k: nat :: IsLastDocument(rows, i, version, k) && rows[k].content.value.role.flag == flag
  }

  ghost predicate EventSays(rows: seq<Source>, i: nat, event: string, flag: bool) {
    exists k: nat :: IsLastEvent(rows, i, event, k) && rows[k].content.value.role.flag == flag
  }

  ghost predicate Admitted(rows: seq<Source>, i: nat)
    requires i < |rows|
  {
    && rows[i].content.Some? && rows[i].content.value.complete
    && var c := rows[i].content.value;
       match c.role
       case Event(_, flag) => flag
       case Document(_, flag) => flag
       case Other =>
         || States(c, true)
         || (StatesNothing(c) && DocumentSays(rows, i, c.document, true))
         || (StatesNothing(c) && EventSays(rows, i, c.event, true)
             && forall k: nat | k < i :: !IsDocumentRow(rows, k, c.document))
  }

  ghost function AdmittedBefore(rows: seq<Source>, i: nat): nat
    requires i <= |rows|
  {
    if i == 0 then 0 else AdmittedBefore(rows, i - 1) + if Admitted(rows, i - 1) then 1 else 0
  }

  lemma {:induction false} DocumentFlagIs(rows: seq<Source>, i: nat, version: string)
    requires i <= |rows|
    ensures forall flag :: DocumentFlag(rows[..i], version) == Some(flag) <==> DocumentSays(rows, i, version, flag)
    ensures DocumentFlag(rows[..i], version).None? <==> forall k: nat | k < i :: !IsDocumentRow(rows, k, version)
  {
    if i > 0 {
      DocumentFlagIs(rows, i - 1, version);
      assert rows[..i][..i - 1] == rows[..i - 1] && rows[..i][i - 1] == rows[i - 1];
      if IsDocumentRow(rows, i - 1, version) {
        assert IsLastDocument(rows, i, version, i - 1);
      } else {
        assert forall k: nat :: IsLastDocument(rows, i, version, k) <==> IsLastDocument(rows, i - 1, version, k);
      }
    }
  }

  lemma {:induction false} EventFlagIs(rows: seq<Source>, i: nat, event: string)
    requires i <= |rows|
    ensures forall flag :: EventFlag(rows[..i], event) == Some(flag) <==> EventSays(rows, i, event, flag)
  {
    if i > 0 {
      EventFlagIs(rows, i - 1, event);
      assert rows[..i][..i - 1] == rows[..i - 1] && rows[..i][i - 1] == rows[i - 1];
      if IsEventRow(rows, i - 1, event) {
        assert IsLastEvent(rows, i, event, i - 1);
      } else {
        assert forall k: nat :: IsLastEvent(rows, i, event, k) <==> IsLastEvent(rows, i - 1, event, k);
      }
    }
  }

  lemma ProjectsIffAdmitted(rows: seq<Source>, i: nat)
    requires i < |rows|
    ensures Projects(rows[..i], rows[i]) <==> Admitted(rows, i)
  {
    if rows[i].content.Some? {
      DocumentFlagIs(rows, i, rows[i].content.value.document);
      EventFlagIs(rows, i, rows[i].content.value.event);
      hide DocumentSays, EventSays, DocumentFlag, EventFlag;
    }
  }

  /** Each row in order is a record, if it is admitted, and else a note; and there is nothing else. */
  ghost predicate Sorted(rows: seq<Source>, records: seq<Record>, quarantined: seq<Note>) {
    && |records| == AdmittedBefore(rows, |rows|) && |quarantined| == |rows| - |records|
    && forall i: nat | i < |rows| :: SortedAt(rows, i, records, quarantined)
  }

  ghost predicate SortedAt(rows: seq<Source>, i: nat, records: seq<Record>, quarantined: seq<Note>)
    requires i < |rows|
  {
    var n := AdmittedBefore(rows, i);
    if Admitted(rows, i) then n < |records| && records[n] == ToRecord(rows[i])
    else 0 <= i - n < |quarantined| && quarantined[i - n] == Note(rows[i].kind, rows[i].id, rows[i].cipher)
  }

  lemma {:induction false} ProjectedAre(rows: seq<Source>, i: nat)
    requires i <= |rows|
    ensures |Projected(rows[..i])| == AdmittedBefore(rows, i) && |Quarantined(rows[..i])| == i - AdmittedBefore(rows, i)
    ensures forall k: nat | k < i :: SortedAt(rows, k, Projected(rows[..i]), Quarantined(rows[..i]))
  {
    hide Admitted, Projects, Projected, Quarantined;
    if i == 0 {
      NothingProjected(rows);
    } else {
      ProjectedAre(rows, i - 1);
      ProjectsIffAdmitted(rows, i - 1);
      OneMoreSource(rows, i - 1);
      forall k: nat | k < i ensures SortedAt(rows, k, Projected(rows[..i]), Quarantined(rows[..i])) {
        if k < i - 1 {
          assert SortedAt(rows, k, Projected(rows[..i - 1]), Quarantined(rows[..i - 1]));
        }
      }
    }
  }

  lemma NothingProjected(rows: seq<Source>)
    ensures Projected(rows[..0]) == [] && Quarantined(rows[..0]) == []
  {
  }

  lemma OneMoreSource(rows: seq<Source>, i: nat)
    requires i < |rows|
    ensures Projected(rows[..i + 1]) ==
      Projected(rows[..i]) + if Projects(rows[..i], rows[i]) then [ToRecord(rows[i])] else []
    ensures Quarantined(rows[..i + 1]) == Quarantined(rows[..i])
      + if Projects(rows[..i], rows[i]) then [] else [Note(rows[i].kind, rows[i].id, rows[i].cipher)]
  {
    assert rows[..i + 1][..i] == rows[..i] && rows[..i + 1][i] == rows[i];
  }

  method BuildProjectionRecords(rows: seq<Source>) returns (records: seq<Record>, quarantined: seq<Note>)
    ensures records == Projected(rows) && quarantined == Quarantined(rows)
    ensures Sorted(rows, records, quarantined)
  {
    ProjectedAre(rows, |rows|);
    records, quarantined := [], [];
    var eventSimulation: map<string, bool> := map[];
    var documentSimulation: map<string, bool> := map[];
    for i := 0 to |rows|
      invariant records == Projected(rows[..i]) && quarantined == Quarantined(rows[..i])
      invariant forall e :: Lookup(eventSimulation, e) == EventFlag(rows[..i], e)
      invariant forall v :: Lookup(documentSimulation, v) == DocumentFlag(rows[..i], v)
    {
      var row := rows[i];
      assert rows[..i + 1][..i] == rows[..i] && rows[..i + 1][i] == row;
      var note := Note(row.kind, row.id, row.cipher);
      if row.content.None? {
        quarantined := quarantined + [note];
        continue;
      }
      var c := row.content.value;
      var explicit := c.own;
      if explicit.None? {
        explicit := c.inObject;
        if explicit.None? {
          explicit := c.inRecord;
        }
      }
      var simulated: bool;
      if explicit.Some? {
        simulated := explicit.value;
      } else {
        var ofEvent := c.event in eventSimulation && eventSimulation[c.event];
        simulated := if c.document in documentSimulation then documentSimulation[c.document] else ofEvent;
        assert c.document in documentSimulation <==> Lookup(documentSimulation, c.document).Some?;
        assert c.event in eventSimulation <==> Lookup(eventSimulation, c.event).Some?;
      }
      if c.role.Event? {
        eventSimulation := eventSimulation[c.role.event := c.role.flag];
        simulated := c.role.flag;
      }
      if c.role.Document? {
        documentSimulation := documentSimulation[c.role.version := c.role.flag];
        simulated := c.role.flag;
      }
      assert simulated == Simulated(rows[..i], c);
      if simulated && c.complete {
        records := records + [ToRecord(row)];
      } else {
        quarantined := quarantined + [note];
      }
    }
    assert rows[..|rows|] == rows;
  }

  function Lookup(m: map<string, bool>, key: string): Option<bool> {
    if key in m then Some(m[key]) else None
  }

  /** Row by row, in order, each row is either a record or a note, and nothing else is either. */
  lemma {:induction false} EveryRowOnce(rows: seq<Source>, i: nat)
    requires i < |rows|
    ensures |Projected(rows)| + |Quarantined(rows)| == |rows|
    ensures var r, q := |Projected(rows[..i])|, |Quarantined(rows[..i])|;
      if Projects(rows[..i], rows[i])
      then r < |Projected(rows)| && Projected(rows)[r] == ToRecord(rows[i])
      else q < |Quarantined(rows)| && Quarantined(rows)[q] == Note(rows[i].kind, rows[i].id, rows[i].cipher)
  {
    hide Projects;
    var n := |rows| - 1;
    if i < n {
      EveryRowOnce(rows[..n], i);
      assert rows[..n][..i] == rows[..i];
    } else if n > 0 {
      EveryRowOnce(rows[..n], n - 1);
    }
  }

  /** Events are read first, so what later rows learn about an event is all there is to learn. */
  lemma {:induction false} EventsAreSettled(rows: seq<Source>, n: nat, event: string)
    requires n <= |rows|
    requires forall i | n <= i < |rows| && rows[i].content.Some? :: !rows[i].content.value.role.Event?
    ensures EventFlag(rows, event) == EventFlag(rows[..n], event)
  {
    if n < |rows| {
      var front := rows[..|rows| - 1];
      EventsAreSettled(front, n, event);
      assert front[..n] == rows[..n];
    } else {
      assert rows[..n] == rows;
    }
  }

  // ---------------------------------------------------------------- the two listings

  datatype Entry = Entry(id: string, hash: string)

  /** A hexadecimal digest, as far as the listings care. */
  predicate IsHash(h: string) {
    ':' !in h
  }

  function Line(e: Entry): string {
    e.id + ":" + e.hash
  }

  function Lines(entries: seq<Entry>): (lines: seq<string>)
    ensures |lines| == |entries| && forall i | 0 <= i < |entries| :: lines[i] == Line(entries[i])
  {
    if entries == [] then [] else Lines(entries[..|entries| - 1]) + [Line(entries[|entries| - 1])]
  }

  predicate Ascending(lines: seq<string>) {
    forall i, j | 0 <= i < j < |lines| :: LexLess(lines[i], lines[j])
  }

  predicate AscendingIds(entries: seq<Entry>) {
    forall i, j | 0 <= i < j < |entries| :: LexLess(entries[i].id, entries[j].id)
  }

  predicate ProperPrefix(a: string, b: string) {
    |a| < |b| && b[..|a|] == a
  }

  /** The entries come by identifier as x, y but their lines as y, x: the longer identifier goes on with
      something that sorts before a colon and the digest of the shorter one. */
  predicate Clash(x: Entry, y: Entry) {
    ProperPrefix(x.id, y.id) && LexLess(y.id[|x.id|..] + ":" + y.hash, ":" + x.hash)
  }

  lemma {:induction false} LineOrder(x: Entry, y: Entry)
    requires LexLess(x.id, y.id) && IsHash(x.hash) && IsHash(y.hash)
    ensures Line(x) != Line(y)
    ensures LexLess(Line(x), Line(y)) <==> !Clash(x, y)
    decreases |x.id|
  {
    if Line(x) == Line(y) {
      LinesDiffer(x, y);
      LexTrichotomy(x.id, y.id);
    }
    if x.id == "" {
      assert Line(x) == ":" + x.hash && Line(y) == y.id[0..] + ":" + y.hash;
      LexTrichotomy(Line(x), Line(y));
    } else if x.id[0] == y.id[0] {
      var x', y' := Entry(x.id[1..], x.hash), Entry(y.id[1..], y.hash);
      LineOrder(x', y');
      assert Line(x)[1..] == Line(x') && Line(y)[1..] == Line(y');
      PrefixTail(x.id, y.id);
    }
  }

  lemma PrefixTail(a: string, b: string)
    requires a != "" && b != "" && a[0] == b[0]
    ensures ProperPrefix(a, b) <==> ProperPrefix(a[1..], b[1..])
    ensures ProperPrefix(a, b) ==> b[|a|..] == b[1..][|a| - 1..]
  {
    assert a == [a[0]] + a[1..] && b == [b[0]] + b[1..];
    if ProperPrefix(a[1..], b[1..]) {
      assert b[..|a|] == [b[0]] + b[1..][..|a| - 1];
    }
    if ProperPrefix(a, b) {
      assert b[1..][..|a| - 1] == b[..|a|][1..];
    }
  }

  lemma ColonIsLast(e: Entry)
    requires IsHash(e.hash)
    ensures Line(e)[|e.id|] == ':' && forall k | |e.id| < k < |Line(e)| :: Line(e)[k] != ':'
  {
    assert forall k | |e.id| < k < |Line(e)| :: Line(e)[k] == e.hash[k - |e.id| - 1];
  }

  /** Digests hold no colon, so a line has one identifier. */
  lemma LinesDiffer(x: Entry, y: Entry)
    requires IsHash(x.hash) && IsHash(y.hash) && Line(x) == Line(y)
    ensures x == y
  {
    ColonIsLast(x);
    ColonIsLast(y);
    var line := Line(x);
    assert |x.id| == |y.id|;
    assert x.id == line[..|x.id|] && y.id == line[..|y.id|];
    assert x.hash == line[|x.id| + 1..] && y.hash == line[|y.id| + 1..];
  }

  lemma NotEmpty(a: seq<string>, b: seq<string>)
    requires a != [] && forall s | s in a :: s in b
    ensures b != []
  {
    assert a[0] in b;
  }

  /** Of one set of lines there is one ascending listing. */
  lemma {:induction false} AscendingIsUnique(a: seq<string>, b: seq<string>)
    requires Ascending(a) && Ascending(b) && forall s :: s in a <==> s in b
    ensures a == b
  {
    if a != [] {
      NotEmpty(a, b);
    }
    if b != [] {
      NotEmpty(b, a);
      assert a[0] in b && b[0] in a;
      if a[0] != b[0] {
        LexTrichotomy(a[0], b[0]);
      }
      forall s ensures s in a[1..] <==> s in b[1..] {
        LexTrichotomy(a[0], a[0]);
        assert s in a <==> s == a[0] || s in a[1..];
        assert s in b <==> s == b[0] || s in b[1..];
        assert a[0] !in a[1..] && b[0] !in b[1..];
      }
      AscendingIsUnique(a[1..], b[1..]);
      assert a == [a[0]] + a[1..] && b == [b[0]] + b[1..];
    }
  }

  predicate NoClash(entries: seq<Entry>) {
    forall x, y | x in entries && y in entries :: !Clash(x, y)
  }

  /** The lines in order and the entries in order list the same, exactly when no two entries clash. */
  lemma ListingsAgree(lines: seq<string>, entries: seq<Entry>)
    requires Ascending(lines) && AscendingIds(entries)
    requires forall e | e in entries :: IsHash(e.hash)
    requires forall s :: s in lines <==> s in Lines(entries)
    ensures lines == Lines(entries) <==> NoClash(entries)
  {
    forall i, j | 0 <= i < j < |entries|
      ensures LexLess(Line(entries[i]), Line(entries[j])) <==> !Clash(entries[i], entries[j])
      ensures !Clash(entries[j], entries[i])
    {
      LineOrder(entries[i], entries[j]);
      PrefixIsLess(entries[j], entries[i]);
    }
    assert Ascending(Lines(entries)) <==> NoClash(entries) by {
      assert forall x | x in entries :: !Clash(x, x);
    }
    if NoClash(entries) {
      AscendingIsUnique(lines, Lines(entries));
    }
  }

  lemma PrefixIsLess(x: Entry, y: Entry)
    requires LexLess(y.id, x.id)
    ensures !ProperPrefix(x.id, y.id)
  {
    if ProperPrefix(x.id, y.id) {
      PrefixLess(x.id, y.id);
      LexTrichotomy(x.id, y.id);
    }
  }

  lemma {:induction false} PrefixLess(a: string, b: string)
    requires ProperPrefix(a, b)
    ensures LexLess(a, b)
  {
    if a != "" {
      assert b[..|a|][0] == a[0];
      assert b[1..][..|a| - 1] == b[..|a|][1..];
      PrefixLess(a[1..], b[1..]);
    }
  }

  /** Whatever the digests are: identifiers that go on with more than a colon never clash, and identifiers
      that go on with less always do. */
  lemma NextCharacterDecides(x: Entry, y: Entry)
    requires ProperPrefix(x.id, y.id)
    ensures y.id[|x.id|] > ':' ==> !Clash(x, y)
    ensures y.id[|x.id|] < ':' ==> Clash(x, y)
  {
    var rest := y.id[|x.id|..] + ":" + y.hash;
    assert rest[0] == y.id[|x.id|] && (":" + x.hash)[0] == ':';
  }

  /** An evidence package that reaches version 10 keeps its table from reconciling. */
  lemma VersionTenClashes(package: string, h1: string, h10: string, entries: seq<Entry>)
    requires Entry(package + "::1", h1) in entries && Entry(package + "::10", h10) in entries
    ensures !NoClash(entries)
  {
    var x, y := Entry(package + "::1", h1), Entry(package + "::10", h10);
    assert y.id[..|x.id|] == x.id && y.id[|x.id|] == '0';
    NextCharacterDecides(x, y);
  }

  // ---------------------------------------------------------------- the shadow table

  datatype Key = Key(kind: string, id: string)

  datatype Row = Row(hash: string, body: string, batch: string)

  /** What a batch identifier stands for: its digest covers kind, identifier and digest of every record. */
  datatype Logical = Logical(kind: string, id: string, hash: string)

  function ToLogical(r: Record): Logical {
    Logical(r.kind, r.id, r.hash)
  }

  ghost predicate Covers(contents: set<Logical>, records: seq<Record>) {
    forall l :: l in contents <==> exists r :: r in records && ToLogical(r) == l
  }

  /** INSERT … ON CONFLICT(record_type, source_id) DO UPDATE, record by record. */
  function Upserted(rows: map<Key, Row>, records: seq<Record>, batch: string): map<Key, Row> {
    if records == [] then rows
    else
      var last := records[|records| - 1];
      Upserted(rows, records[..|records| - 1], batch)[Key(last.kind, last.id) := Row(last.hash, last.body, batch)]
  }

  /** Every row carries what its batch stands for; other batches may have overwritten the rest. */
  ghost predicate Holds(rows: map<Key, Row>, contents: string -> set<Logical>) {
    forall k | k in rows :: Logical(k.kind, k.id, rows[k].hash) in contents(rows[k].batch)
  }

  predicate HasRow(rows: map<Key, Row>, kind: string, batch: string, id: string) {
    Key(kind, id) in rows && rows[Key(kind, id)].batch == batch
  }

  /** The record that is written last under a key. */
  function LastOf(records: seq<Record>, k: Key): Option<Record> {
    if records == [] then None
    else
      var last := records[|records| - 1];
      if Key(last.kind, last.id) == k then Some(last) else LastOf(records[..|records| - 1], k)
  }

  lemma {:induction false} UpsertedRow(rows: map<Key, Row>, records: seq<Record>, batch: string, k: Key)
    ensures k in Upserted(rows, records, batch) <==> k in rows || LastOf(records, k).Some?
    ensures LastOf(records, k).Some? ==>
      Upserted(rows, records, batch)[k] == Row(LastOf(records, k).value.hash, LastOf(records, k).value.body, batch)
    ensures LastOf(records, k).None? && k in rows ==> Upserted(rows, records, batch)[k] == rows[k]
  {
    if records != [] {
      UpsertedRow(rows, records[..|records| - 1], batch, k);
    }
  }

  /** Writing the records of a run a second time changes nothing. */
  lemma UpsertTwice(rows: map<Key, Row>, records: seq<Record>, batch: string)
    ensures Upserted(Upserted(rows, records, batch), records, batch) == Upserted(rows, records, batch)
  {
    var once := Upserted(rows, records, batch);
    var twice := Upserted(once, records, batch);
    forall k ensures (k in twice <==> k in once) && (k in once ==> twice[k] == once[k]) {
      UpsertedRow(rows, records, batch, k);
      UpsertedRow(once, records, batch, k);
    }
  }

  lemma {:induction false} LastIsARecord(records: seq<Record>, k: Key)
    ensures LastOf(records, k).Some? <==> exists r :: r in records && Key(r.kind, r.id) == k
    ensures LastOf(records, k).Some? ==> LastOf(records, k).value in records
    ensures LastOf(records, k).Some? ==> Key(LastOf(records, k).value.kind, LastOf(records, k).value.id) == k
  {
    if records != [] {
      var front, last := records[..|records| - 1], records[|records| - 1];
      LastIsARecord(front, k);
      assert records == front + [last];
    }
  }

  // ---------------------------------------------------------------- the records of one kind

  function Entries(records: seq<Record>, kind: string): seq<Entry> {
    if records == [] then []
    else
      var front, last := Entries(records[..|records| - 1], kind), records[|records| - 1];
      if last.kind == kind then front + [Entry(last.id, last.hash)] else front
  }

  function Ids(entries: seq<Entry>): (ids: seq<string>)
    ensures |ids| == |entries| && forall i | 0 <= i < |entries| :: ids[i] == entries[i].id
  {
    if entries == [] then [] else Ids(entries[..|entries| - 1]) + [entries[|entries| - 1].id]
  }

  lemma {:induction false} EntriesOfKind(records: seq<Record>, kind: string, e: Entry)
    ensures e in Entries(records, kind) <==> exists r :: r in records && r.kind == kind && Entry(r.id, r.hash) == e
  {
    if records != [] {
      var front, last := records[..|records| - 1], records[|records| - 1];
      EntriesOfKind(front, kind, e);
      assert records == front + [last];
    }
  }

  /** What makes the records of a kind reconcile. */
  ghost predicate Faithful(entries: seq<Entry>) {
    AllDifferent(Ids(entries)) && NoClash(entries)
  }

  /** After the upsert, the rows of a kind and batch are the last records of the kind, and no others:
      rows left over from other runs carry another batch or the same content. */
  ghost predicate IsListed(rows: map<Key, Row>, kind: string, batch: string, entries: seq<Entry>) {
    && AscendingIds(entries)
    && forall e :: e in entries <==> HasRow(rows, kind, batch, e.id) && rows[Key(kind, e.id)].hash == e.hash
  }

  predicate Hashed(records: seq<Record>) {
    forall r | r in records :: IsHash(r.hash)
  }

  lemma UpsertKeeps(rows: map<Key, Row>, records: seq<Record>, batch: string, contents: string -> set<Logical>)
    requires Holds(rows, contents) && Covers(contents(batch), records)
    ensures Holds(Upserted(rows, records, batch), contents)
  {
    var later := Upserted(rows, records, batch);
    forall k | k in later ensures Logical(k.kind, k.id, later[k].hash) in contents(later[k].batch) {
      UpsertedRow(rows, records, batch, k);
      LastIsARecord(records, k);
      if LastOf(records, k).Some? {
        var r := LastOf(records, k).value;
        var i :| 0 <= i < |records| && records[i] == r;
        assert ToLogical(records[i]) == Logical(k.kind, k.id, later[k].hash);
      }
    }
  }

  /** The rows that carry the batch are those of its records, whatever earlier runs left behind. */
  lemma TaggedRows(rows: map<Key, Row>, records: seq<Record>, batch: string, contents: string -> set<Logical>,
                   kind: string, id: string)
    requires Holds(rows, contents) && Covers(contents(batch), records)
    ensures var later := Upserted(rows, records, batch);
      && (HasRow(later, kind, batch, id) <==> LastOf(records, Key(kind, id)).Some?)
      && (HasRow(later, kind, batch, id) ==> later[Key(kind, id)].hash == LastOf(records, Key(kind, id)).value.hash)
  {
    var later, k := Upserted(rows, records, batch), Key(kind, id);
    UpsertedRow(rows, records, batch, k);
    LastIsARecord(records, k);
  }

  // ---------------------------------------------------------------- a run of the migration

  /** The ids listed for a kind are the ids of its records. */
  lemma ListedIds(rows: map<Key, Row>, records: seq<Record>, batch: string, contents: string -> set<Logical>,
                  kind: string, target: seq<Entry>)
    requires Holds(rows, contents) && Covers(contents(batch), records)
    requires IsListed(Upserted(rows, records, batch), kind, batch, target)
    ensures Members(Ids(target)) == Members(Ids(Entries(records, kind)))
    ensures forall e | e in target :: e in Entries(records, kind)
    ensures AllDifferent(Ids(target)) && AscendingIds(target)
  {
    var later, entries := Upserted(rows, records, batch), Entries(records, kind);
    forall e | e in target ensures e in entries {
      TaggedRows(rows, records, batch, contents, kind, e.id);
      LastIsARecord(records, Key(kind, e.id));
      EntriesOfKind(records, kind, e);
    }
    forall e | e in entries ensures exists t :: t in target && t.id == e.id {
      EntriesOfKind(records, kind, e);
      TaggedRows(rows, records, batch, contents, kind, e.id);
      LastIsARecord(records, Key(kind, e.id));
      assert Entry(e.id, later[Key(kind, e.id)].hash) in target;
    }
    IdMembers(target);
    IdMembers(entries);
    forall i, j | 0 <= i < j < |target| ensures target[i].id != target[j].id {
      LexTrichotomy(target[i].id, target[j].id);
    }
  }

  lemma IdMembers(entries: seq<Entry>)
    ensures forall id :: id in Members(Ids(entries)) <==> exists e :: e in entries && e.id == id
  {
    forall id | id in Members(Ids(entries)) ensures exists e :: e in entries && e.id == id {
      var i :| 0 <= i < |entries| && Ids(entries)[i] == id;
      assert entries[i] in entries;
    }
    forall e | e in entries ensures e.id in Ids(entries) {
      var i :| 0 <= i < |entries| && entries[i] == e;
      assert Ids(entries)[i] == e.id;
    }
  }

  /** A kind passes reconciliation exactly when its identifiers are distinct and no two entries clash. */
  lemma PassesIffFaithful(rows: map<Key, Row>, records: seq<Record>, batch: string,
                          contents: string -> set<Logical>, kind: string, lines: seq<string>, target: seq<Entry>)
    requires Holds(rows, contents) && Covers(contents(batch), records) && Hashed(records)
    requires IsListed(Upserted(rows, records, batch), kind, batch, target)
    requires IsSourceListing(Entries(records, kind), lines)
    ensures |lines| == |target| && lines == Lines(target) <==> Faithful(Entries(records, kind))
    ensures |lines| == |Entries(records, kind)| && |target| == |Members(Ids(Entries(records, kind)))|
  {
    hide Holds, Covers, IsListed, LexLess;
    var entries := Entries(records, kind);
    ListedIds(rows, records, batch, contents, kind, target);
    DifferentCount(Ids(target));
    DifferentCount(Ids(entries));
    forall e | e in entries ensures IsHash(e.hash) {
      EntriesOfKind(records, kind, e);
    }
    if AllDifferent(Ids(entries)) {
      SameIdsSameEntries(target, entries);
      DifferentLines(entries);
      SameLines(target, entries);
      ListingsAgree(lines, target);
      assert NoClash(target) <==> NoClash(entries);
    }
  }

  lemma DifferentLines(entries: seq<Entry>)
    requires AllDifferent(Ids(entries)) && forall e | e in entries :: IsHash(e.hash)
    ensures AllDifferent(Lines(entries))
  {
    forall i, j | 0 <= i < j < |entries| ensures Lines(entries)[i] != Lines(entries)[j] {
      assert Ids(entries)[i] != Ids(entries)[j];
      if Line(entries[i]) == Line(entries[j]) {
        LinesDiffer(entries[i], entries[j]);
      }
    }
  }

  lemma SameIdsSameEntries(some: seq<Entry>, entries: seq<Entry>)
    requires AllDifferent(Ids(entries)) && Members(Ids(some)) == Members(Ids(entries))
    requires forall e | e in some :: e in entries
    ensures forall e | e in entries :: e in some
  {
    hide Members;
    IdMembers(some);
    IdMembers(entries);
    forall e | e in entries ensures e in some {
      assert e.id in Members(Ids(some));
      var t :| t in some && t.id == e.id;
      SameIdSameEntry(entries, e, t);
    }
  }

  lemma SameIdSameEntry(entries: seq<Entry>, x: Entry, y: Entry)
    requires AllDifferent(Ids(entries)) && x in entries && y in entries && x.id == y.id
    ensures x == y
  {
    var i :| 0 <= i < |entries| && entries[i] == x;
    var j :| 0 <= j < |entries| && entries[j] == y;
    assert Ids(entries)[i] == Ids(entries)[j];
  }

  lemma SameLines(a: seq<Entry>, b: seq<Entry>)
    requires forall e :: e in a <==> e in b
    ensures forall s :: s in Lines(a) <==> s in Lines(b)
  {
    LineMembers(a);
    LineMembers(b);
  }

  lemma LineMembers(entries: seq<Entry>)
    ensures forall s :: s in Lines(entries) <==> exists e :: e in entries && Line(e) == s
  {
    forall s | s in Lines(entries) ensures exists e :: e in entries && Line(e) == s {
      var i :| 0 <= i < |entries| && Lines(entries)[i] == s;
      assert entries[i] in entries;
    }
    forall e | e in entries ensures Line(e) in Lines(entries) {
      var i :| 0 <= i < |entries| && entries[i] == e;
      assert Lines(entries)[i] == Line(e);
    }
  }

  /** The lines of the entries, sorted. */
  ghost predicate IsSourceListing(entries: seq<Entry>, lines: seq<string>) {
    && |lines| == |entries|
    && (forall s :: s in lines <==> s in Lines(entries))
    && (AllDifferent(Lines(entries)) ==> Ascending(lines))
  }

  function InsertLine(lines: seq<string>, line: string): seq<string> {
    if lines == [] || LexLess(line, lines[0]) then [line] + lines else [lines[0]] + InsertLine(lines[1..], line)
  }

  lemma Prepend(first: string, rest: seq<string>)
    requires Ascending(rest) && forall s | s in rest :: LexLess(first, s)
    ensures Ascending([first] + rest)
  {
    assert forall k | 0 <= k < |rest| :: rest[k] in rest;
  }

  lemma {:induction false} InsertLineKeeps(lines: seq<string>, line: string)
    ensures |InsertLine(lines, line)| == |lines| + 1
    ensures forall s :: s in InsertLine(lines, line) <==> s == line || s in lines
    ensures Ascending(lines) && line !in lines ==> Ascending(InsertLine(lines, line))
  {
    if lines != [] && !LexLess(line, lines[0]) {
      InsertLineKeeps(lines[1..], line);
      assert lines == [lines[0]] + lines[1..];
      if Ascending(lines) && line !in lines {
        LexTrichotomy(line, lines[0]);
        Prepend(lines[0], InsertLine(lines[1..], line));
      }
    } else if lines != [] && Ascending(lines) {
      forall k | 0 < k < |lines| ensures LexLess(line, lines[k]) {
        LexTransitive(line, lines[0], lines[k]);
      }
    }
  }

  function InsertEntry(entries: seq<Entry>, e: Entry): seq<Entry> {
    if entries == [] || LexLess(e.id, entries[0].id) then [e] + entries
    else [entries[0]] + InsertEntry(entries[1..], e)
  }

  lemma {:induction false} InsertEntryKeeps(entries: seq<Entry>, e: Entry)
    requires AscendingIds(entries) && forall x | x in entries :: x.id != e.id
    ensures forall x :: x in InsertEntry(entries, e) <==> x == e || x in entries
    ensures AscendingIds(InsertEntry(entries, e))
  {
    if entries != [] && !LexLess(e.id, entries[0].id) {
      InsertEntryKeeps(entries[1..], e);
      LexTrichotomy(e.id, entries[0].id);
      assert entries == [entries[0]] + entries[1..];
      var rest := InsertEntry(entries[1..], e);
      forall k | 0 <= k < |rest| ensures LexLess(entries[0].id, rest[k].id) {
        assert rest[k] in rest;
      }
    } else if entries != [] {
      forall k | 0 < k < |entries| ensures LexLess(e.id, entries[k].id) {
        LexTransitive(e.id, entries[0].id, entries[k].id);
      }
    }
  }

  method SourceListing(records: seq<Record>, kind: string) returns (lines: seq<string>)
    ensures IsSourceListing(Entries(records, kind), lines)
  {
    lines := [];
    for i := 0 to |records|
      invariant IsSourceListing(Entries(records[..i], kind), lines)
    {
      assert records[..i + 1][..i] == records[..i];
      var r := records[i];
      if r.kind == kind {
        ghost var front := Entries(records[..i], kind);
        var e := Entry(r.id, r.hash);
        assert Entries(records[..i + 1], kind) == front + [e];
        assert (front + [e])[..|front|] == front && Lines(front + [e]) == Lines(front) + [Line(e)];
        InsertLineKeeps(lines, Line(e));
        assert AllDifferent(Lines(front + [e])) ==> Line(e) !in Lines(front);
        lines := InsertLine(lines, Line(e));
      }
    }
    assert records[..|records|] == records;
  }

  datatype Report = Report(kind: string, sourceCount: nat, targetCount: nat, passed: bool)

  /** The report gives both counts, that of the target without repetitions, and passes faithful records only. */
  ghost predicate ReportFits(report: Report, records: seq<Record>, kind: string) {
    && report.kind == kind
    && report.sourceCount == |Entries(records, kind)|
    && report.targetCount == |Members(Ids(Entries(records, kind)))|
    && (report.passed <==> Faithful(Entries(records, kind)))
  }

  class ShadowStore {
    var rows: map<Key, Row>

    constructor ()
      ensures rows == map[]
    {
      rows := map[];
    }

    method UpsertAll(records: seq<Record>, batch: string)
      modifies this
      ensures rows == Upserted(old(rows), records, batch)
    {
      for i := 0 to |records|
        invariant rows == Upserted(old(rows), records[..i], batch)
      {
        assert records[..i + 1][..i] == records[..i];
        var r := records[i];
        rows := rows[Key(r.kind, r.id) := Row(r.hash, r.body, batch)];
      }
      assert records[..|records|] == records;
    }

    /** SELECT … WHERE migration_batch = … AND record_type = … ORDER BY source_id. */
    method TargetListing(kind: string, batch: string) returns (entries: seq<Entry>)
      ensures IsListed(rows, kind, batch, entries)
    {
      entries := [];
      var rest := rows.Keys;
      while rest != {}
        invariant rest <= rows.Keys && AscendingIds(entries)
        invariant forall e :: e in entries <==>
          HasRow(rows, kind, batch, e.id) && rows[Key(kind, e.id)].hash == e.hash && Key(kind, e.id) !in rest
        decreases |rest|
      {
        var k :| k in rest;
        rest := rest - {k};
        if k.kind == kind && rows[k].batch == batch {
          var e := Entry(k.id, rows[k].hash);
          InsertEntryKeeps(entries, e);
          entries := InsertEntry(entries, e);
        }
      }
    }

    /** Upserts the records and compares, kind by kind, counts and listings of source and target. */
    method Migrate(records: seq<Record>, quarantined: nat, kinds: seq<string>, batch: string,
                   ghost contents: string -> set<Logical>)
      returns (reports: seq<Report>, completed: bool)
      requires Holds(rows, contents) && Covers(contents(batch), records) && Hashed(records)
      modifies this
      ensures rows == Upserted(old(rows), records, batch) && Holds(rows, contents)
      ensures |reports| == |kinds|
      ensures forall i | 0 <= i < |kinds| :: ReportFits(reports[i], records, kinds[i])
      ensures completed <==> quarantined == 0 && forall i | 0 <= i < |kinds| :: Faithful(Entries(records, kinds[i]))
    {
      hide Faithful, Holds, Covers, Hashed, IsListed, IsSourceListing;
      ghost var before := rows;
      UpsertKeeps(before, records, batch, contents);
      UpsertAll(records, batch);
      reports, completed := [], quarantined == 0;
      for i := 0 to |kinds|
        invariant rows == Upserted(before, records, batch) && |reports| == i
        invariant forall j | 0 <= j < i :: ReportFits(reports[j], records, kinds[j])
        invariant completed <==> quarantined == 0 && forall j | 0 <= j < i :: Faithful(Entries(records, kinds[j]))
      {
        var lines := SourceListing(records, kinds[i]);
        var target := TargetListing(kinds[i], batch);
        PassesIffFaithful(before, records, batch, contents, kinds[i], lines, target);
        var passed := |lines| == |target| && lines == Lines(target);
        var report := Report(kinds[i], |lines|, |target|, passed);
        assert ReportFits(report, records, kinds[i]);
        reports := reports + [report];
        completed := completed && passed;
      }
    }
  }

  // ---------------------------------------------------------------- any sequence of runs

  datatype Batch = Batch(id: string, records: seq<Record>)

  function RowsAfter(runs: seq<Batch>): map<Key, Row> {
    if runs == [] then map[]
    else Upserted(RowsAfter(runs[..|runs| - 1]), runs[|runs| - 1].records, runs[|runs| - 1].id)
  }

  ghost predicate Determined(runs: seq<Batch>, contents: string -> set<Logical>) {
    forall i | 0 <= i < |runs| :: Covers(contents(runs[i].id), runs[i].records)
  }

  lemma {:induction false} RunsHold(runs: seq<Batch>, contents: string -> set<Logical>)
    requires Determined(runs, contents)
    ensures Holds(RowsAfter(runs), contents)
  {
    if runs != [] {
      var front, last := runs[..|runs| - 1], runs[|runs| - 1];
      RunsHold(front, contents);
      UpsertKeeps(RowsAfter(front), last.records, last.id, contents);
    }
  }

  /** After any sequence of runs, the rows that carry the last batch are exactly its records: rows that an
      earlier run left behind are not counted, and doing the last run again changes nothing. */
  lemma LastBatchIsExact(runs: seq<Batch>, last: Batch, contents: string -> set<Logical>, kind: string, id: string)
    requires Determined(runs + [last], contents)
    ensures HasRow(RowsAfter(runs + [last]), kind, last.id, id) <==> LastOf(last.records, Key(kind, id)).Some?
    ensures HasRow(RowsAfter(runs + [last]), kind, last.id, id) ==>
      RowsAfter(runs + [last])[Key(kind, id)].hash == LastOf(last.records, Key(kind, id)).value.hash
    ensures RowsAfter(runs + [last, last]) == RowsAfter(runs + [last])
  {
    assert (runs + [last])[..|runs|] == runs && (runs + [last, last])[..|runs| + 1] == runs + [last];
    assert Determined(runs, contents) by {
      assert forall i | 0 <= i < |runs| :: (runs + [last])[i] == runs[i];
    }
    RunsHold(runs, contents);
    assert Covers(contents(last.id), last.records) by {
      assert (runs + [last])[|runs|] == last;
    }
    TaggedRows(RowsAfter(runs), last.records, last.id, contents, kind, id);
    UpsertTwice(RowsAfter(runs), last.records, last.id);
  }

  // ---------------------------------------------------------------- batch identifiers

  function Cut(text: string, length: nat): string {
    if |text| <= length then text else text[..length]
  }

  /** Only 24 characters of the mapping version and 16 of the digest enter the identifier of a batch. */
  function BatchId(mapping: string, digest: string): string {
    "PGSIM-" + Cut(mapping, 24) + "-" + Cut(digest, 16)
  }

  /** For one content, two mapping versions give the same batch exactly when their first 24 characters
      agree. */
  lemma SameBatchIff(a: string, b: string, digest: string)
    ensures BatchId(a, digest) == BatchId(b, digest) <==> Cut(a, 24) == Cut(b, 24)
  {
    var tail := "-" + Cut(digest, 16);
    assert forall text :: BatchId(text, digest) == "PGSIM-" + Cut(text, 24) + tail;
    if BatchId(a, digest) == BatchId(b, digest) {
      var n := |"PGSIM-"|;
      assert |Cut(a, 24)| == |Cut(b, 24)|;
      assert Cut(a, 24) == BatchId(a, digest)[n..n + |Cut(a, 24)|];
      assert Cut(b, 24) == BatchId(b, digest)[n..n + |Cut(b, 24)|];
    }
  }

  /** The default mapping version and its predecessor give the same content the same batch. */
  lemma MappingVersionIsCutOff(digest: string)
    ensures BatchId("sqlite-response-to-postgis-shadow-v5", digest)
         == BatchId("sqlite-response-to-postgis-shadow-v4", digest)
  {
    var five, four := "sqlite-response-to-postgis-shadow-v5", "sqlite-response-to-postgis-shadow-v4";
    assert five[..24] == four[..24];
    SameBatchIff(five, four, digest);
  }
}
