/** Payload encryption at rest (flood_system/security.py), its migration at startup
    (flood_system/repository.py) and key rotation (flood_system/storage/response_repository.py).

    Encryption is ideal: a token opens with the key that sealed it and with no other. Key identifiers
    may collide, as truncated hashes can; where that matters it is a hypothesis. */
module KeyRing {
  import opened Ordering

  datatype Key = Key(id: string, secret: nat)

  datatype Token = Token(key: Key, text: string, nonce: nat) | Garbage

  /** What a payload column may hold: text that is not JSON, JSON that is no envelope, or an envelope. */
  datatype Payload = NotJson | Plain(text: string) | Sealed(keyId: string, token: Token)

  // ---------------------------------------------------------------- the key ring

  /** The active key and every key the ring can decrypt with, by identifier. */
  datatype Ring = Ring(active: Key, keys: map<string, Key>) {
    predicate Valid() {
      active.id != "" && active.id in keys && keys[active.id] == active
      && forall id | id in keys :: keys[id].id == id
    }
  }

  /** The keys of a ring extended by some candidates in order. */
  function Adopt(keys: map<string, Key>, candidates: seq<Key>): map<string, Key> {
    if candidates == [] then keys
    else
      var before, key := Adopt(keys, candidates[..|candidates| - 1]), candidates[|candidates| - 1];
      if key.id in before then before else before[key.id := key]
  }

  /** Of several keys with one identifier the ring keeps the first, and it keeps nothing else. */
  lemma {:induction false} FirstKeyWins(keys: map<string, Key>, candidates: seq<Key>, id: string)
    ensures id in keys ==> id in Adopt(keys, candidates) && Adopt(keys, candidates)[id] == keys[id]
    ensures id in Adopt(keys, candidates) && id !in keys ==>
      exists i :: 0 <= i < |candidates| && candidates[i].id == id && candidates[i] == Adopt(keys, candidates)[id]
        && forall j | 0 <= j < i :: candidates[j].id != id
    ensures forall i | 0 <= i < |candidates| :: candidates[i].id in Adopt(keys, candidates)
  {
    if candidates != [] {
      var front := candidates[..|candidates| - 1];
      FirstKeyWins(keys, front, id);
      assert forall i | 0 <= i < |front| :: candidates[i] == front[i];
    }
  }

  method MakeRing(key: Key, decryptionKeys: seq<Key>) returns (ring: Ring)
    requires key.id != ""
    ensures ring.Valid() && ring.active == key && ring.keys == Adopt(map[key.id := key], decryptionKeys)
  {
    var keys := map[key.id := key];
    for i := 0 to |decryptionKeys|
      invariant keys == Adopt(map[key.id := key], decryptionKeys[..i])
      invariant key.id in keys && keys[key.id] == key && forall id | id in keys :: keys[id].id == id
    {
      assert decryptionKeys[..i + 1][..i] == decryptionKeys[..i];
      if decryptionKeys[i].id in keys {
        continue;
      }
      keys := keys[decryptionKeys[i].id := decryptionKeys[i]];
    }
    assert decryptionKeys[..|decryptionKeys|] == decryptionKeys;
    ring := Ring(key, keys);
  }

  /** The ring with a new active key in front of every key it had. */
  function WithActiveKey(ring: Ring, newKey: Key): (r: Ring)
    requires ring.Valid() && newKey.id != ""
    ensures r.Valid() && r.active == newKey
    ensures forall id | id in ring.keys && id != newKey.id :: id in r.keys && r.keys[id] == ring.keys[id]
  {
    Ring(newKey, ring.keys[newKey.id := newKey])
  }

  /** The same ring as one rebuilt from the new key and a list of all the former keys, in any order. */
  lemma WithActiveKeyRebuilds(ring: Ring, newKey: Key, former: seq<Key>)
    requires ring.Valid() && newKey.id != ""
    requires forall key | key in former :: key.id in ring.keys && ring.keys[key.id] == key
    requires forall id | id in ring.keys :: ring.keys[id] in former
    ensures Adopt(map[newKey.id := newKey], former) == WithActiveKey(ring, newKey).keys
  {
    var rebuilt, direct := Adopt(map[newKey.id := newKey], former), WithActiveKey(ring, newKey).keys;
    forall id ensures (id in rebuilt <==> id in direct) && (id in rebuilt ==> rebuilt[id] == direct[id]) {
      FirstKeyWins(map[newKey.id := newKey], former, id);
      if id in ring.keys {
        var i :| 0 <= i < |former| && former[i] == ring.keys[id];
        assert former[i].id == id;
      }
    }
  }

  function Decrypt(ring: Ring, p: Payload): Result<string> {
    match p
    case NotJson => Err("stored payload is not valid JSON")
    case Plain(text) => Ok(text)
    case Sealed(id, token) =>
      if id !in ring.keys then Err("key identifier is not present in the active key ring")
      else if token.Token? && token.key == ring.keys[id] then Ok(token.text)
      else Err("encrypted payload authentication failed")
  }

  function Encrypt(ring: Ring, text: string, nonce: nat): Payload {
    Sealed(ring.active.id, Token(ring.active, text, nonce))
  }

  function PayloadKeyId(p: Payload): Option<string> {
    if p.Sealed? && p.keyId != "" then Some(p.keyId) else None
  }

  predicate Current(ring: Ring, p: Payload) {
    PayloadKeyId(p) == Some(ring.active.id)
  }

  predicate Opens(ring: Ring, p: Payload) {
    Decrypt(ring, p).Ok?
  }

  /** Changing the active key loses nothing, unless the new key's identifier shadows another key. */
  lemma NewActiveKeyStillReads(ring: Ring, newKey: Key, p: Payload)
    requires ring.Valid() && newKey.id != "" && (newKey.id in ring.keys ==> ring.keys[newKey.id] == newKey)
    requires Opens(ring, p)
    ensures Decrypt(WithActiveKey(ring, newKey), p) == Decrypt(ring, p)
  {
  }

  // ---------------------------------------------------------------- the database

  type Table = seq<Payload>

  /** A row of the rotation log. */
  datatype Rotation = Rotation(newKeyId: string, pending: bool, startedAt: int)

  datatype Database = Database(tables: seq<Table>, rotations: seq<Rotation>)

  /** R holds between each row before and the row in its place after. */
  ghost predicate RowByRow(R: (Payload, Payload) -> bool, before: seq<Table>, later: seq<Table>) {
    && |before| == |later|
    && forall t | 0 <= t < |before| :: TableByRow(R, before[t], later[t])
  }

  ghost predicate TableByRow(R: (Payload, Payload) -> bool, before: Table, later: Table) {
    && |before| == |later|
    && forall r | 0 <= r < |before| :: R(before[r], later[r])
  }

  ghost predicate AllRows(P: Payload -> bool, tables: seq<Table>) {
    forall t, r | 0 <= t < |tables| && 0 <= r < |tables[t]| :: P(tables[t][r])
  }

  /** `q` is `p` opened with one ring and sealed afresh under the active key of another. */
  predicate Resealed(from: Ring, to: Ring, p: Payload, q: Payload) {
    && Opens(from, p)
    && q.Sealed? && q.token.Token?
    && q == Encrypt(to, Decrypt(from, p).value, q.token.nonce)
  }

  /** What startup does to one row: rows labelled with the active key stay as they are. */
  predicate Migrated(ring: Ring, p: Payload, q: Payload) {
    if Current(ring, p) then q == p else Resealed(ring, ring, p, q)
  }

  predicate Migratable(ring: Ring, p: Payload) {
    Current(ring, p) || Opens(ring, p)
  }

  function Migrating(ring: Ring): (Payload, Payload) -> bool { (p, q) => Migrated(ring, p, q) }

  function Resealing(from: Ring, to: Ring): (Payload, Payload) -> bool { (p, q) => Resealed(from, to, p, q) }

  function CanMigrate(ring: Ring): Payload -> bool { p => Migratable(ring, p) }

  function CanOpen(ring: Ring): Payload -> bool { p => Opens(ring, p) }

  function IsCurrent(ring: Ring): Payload -> bool { p => Current(ring, p) }

  predicate IsPending(rotations: seq<Rotation>, i: nat) {
    i < |rotations| && rotations[i].pending
  }

  predicate IsNewestPending(rotations: seq<Rotation>, i: nat) {
    IsPending(rotations, i)
    && forall j | 0 <= j < |rotations| && rotations[j].pending :: rotations[j].startedAt <= rotations[i].startedAt
  }

  predicate NothingPending(rotations: seq<Rotation>) {
    forall i | 0 <= i < |rotations| :: !rotations[i].pending
  }

  predicate AtMostOnePending(rotations: seq<Rotation>) {
    forall i, j | 0 <= i < j < |rotations| :: !(rotations[i].pending && rotations[j].pending)
  }

  function Activated(rotations: seq<Rotation>, i: nat): seq<Rotation>
    requires i < |rotations|
  {
    rotations[i := rotations[i].(pending := false)]
  }

  /** `newest` is a pending rotation that no pending one is newer than, if any is pending. */
  predicate IsNewest(rotations: seq<Rotation>, newest: Option<nat>) {
    if newest.None? then NothingPending(rotations) else IsNewestPending(rotations, newest.value)
  }

  predicate Allowed(ring: Ring, rotations: seq<Rotation>, newest: Option<nat>)
    requires IsNewest(rotations, newest)
  {
    newest.Some? ==> rotations[newest.value].newKeyId == ring.active.id
  }

  function Promoted(rotations: seq<Rotation>, newest: Option<nat>): seq<Rotation>
    requires IsNewest(rotations, newest)
  {
    if newest.None? then rotations else Activated(rotations, newest.value)
  }

  /** A startup under `ring`, when the check looked at the pending rotation `newest`. */
  ghost predicate StartedAfter(ring: Ring, newest: Option<nat>, before: Database, ok: bool, later: Database)
    requires IsNewest(before.rotations, newest)
  {
    var allowed := Allowed(ring, before.rotations, newest);
    && (ok <==> allowed && AllRows(CanMigrate(ring), before.tables))
    && later.rotations == (if allowed then Promoted(before.rotations, newest) else before.rotations)
    && (!ok ==> later.tables == before.tables)
    && (ok ==> RowByRow(Migrating(ring), before.tables, later.tables))
  }

  ghost predicate Started(ring: Ring, before: Database, ok: bool, later: Database) {
    exists newest :: IsNewest(before.rotations, newest) && StartedAfter(ring, newest, before, ok, later)
  }

  /** A rotation to `newKey` by a process that holds `ring`. */
  ghost predicate Rotated(ring: Ring, newKey: Key, envManaged: bool, before: Database, ok: bool, later: Database)
    requires ring.Valid() && newKey.id != ""
  {
    && (ok <==> newKey.id != ring.active.id && NothingPending(before.rotations) && AllRows(CanOpen(ring), before.tables))
    && (!ok ==> later == before)
    && (ok ==> RowByRow(Resealing(ring, WithActiveKey(ring, newKey)), before.tables, later.tables))
    && (ok ==> |later.rotations| == |before.rotations| + 1)
    && (ok ==> later.rotations[..|before.rotations|] == before.rotations)
    && (ok ==> later.rotations[|before.rotations|].newKeyId == newKey.id)
    && (ok ==> later.rotations[|before.rotations|].pending == envManaged)
  }

  function RowCount(tables: seq<Table>): nat {
    if tables == [] then 0 else RowCount(tables[..|tables| - 1]) + |tables[|tables| - 1]|
  }

  // ---------------------------------------------------------------- startup and rotation

  class Repository {
    var ring: Ring
    var rotationInProgress: bool
    var db: Database

    constructor (ring: Ring, db: Database)
      ensures this.ring == ring && this.db == db && !rotationInProgress
    {
      this.ring, this.db, rotationInProgress := ring, db, false;
    }

    /** UPDATE of one payload inside a transaction. The append-only tables refuse it outside a rotation. */
    method UpdatePayload(table: Table, r: nat, payload: Payload) returns (result: Result<Table>)
      requires r < |table|
      ensures result.Ok? <==> rotationInProgress
      ensures result.Ok? ==> result.value == table[r := payload]
    {
      if !rotationInProgress {
        return Err("append-only table");
      }
      return Ok(table[r := payload]);
    }

    method MigrateTable(table: Table, seed: nat) returns (result: Result<Table>, updated: nat)
      requires ring.Valid() && rotationInProgress
      ensures result.Ok? <==> forall r | 0 <= r < |table| :: Migratable(ring, table[r])
      ensures result.Ok? ==> TableByRow(Migrating(ring), table, result.value)
      ensures result.Ok? ==> (updated == 0 <==> forall r | 0 <= r < |table| :: Current(ring, table[r]))
    {
      hide Decrypt, PayloadKeyId;
      updated := 0;
      var rows := table;
      for r := 0 to |table|
        invariant |rows| == |table| && forall k | r <= k < |table| :: rows[k] == table[k]
        invariant forall k | 0 <= k < r :: Migratable(ring, table[k]) && Migrated(ring, table[k], rows[k])
        invariant updated == 0 <==> forall k | 0 <= k < r :: Current(ring, table[k])
      {
        if Current(ring, rows[r]) {
          continue;
        }
        var raw := Decrypt(ring, rows[r]);
        if raw.Err? {
          return Err(raw.error), updated;
        }
        var written := UpdatePayload(rows, r, Encrypt(ring, raw.value, seed + r));
        if written.Err? {
          return written, updated;
        }
        rows, updated := written.value, updated + 1;
      }
      result := Ok(rows);
    }

    /** Every table in one transaction: a row that does not open rolls all of them back. */
    method MigratePayloads(seed: nat) returns (ok: bool, updated: nat)
      requires ring.Valid()
      modifies this`rotationInProgress, this`db
      ensures !rotationInProgress && db.rotations == old(db.rotations)
      ensures ok <==> AllRows(CanMigrate(ring), old(db.tables))
      ensures !ok ==> db == old(db)
      ensures ok ==> RowByRow(Migrating(ring), old(db.tables), db.tables)
      ensures ok ==> (updated == 0 <==> AllRows(IsCurrent(ring), old(db.tables)))
    {
      hide Migratable, Migrated, Current;
      rotationInProgress, updated := true, 0;
      var tables: seq<Table> := [];
      for t := 0 to |db.tables|
        invariant rotationInProgress && db == old(db) && |tables| == t
        invariant forall k, r | 0 <= k < t && 0 <= r < |db.tables[k]| :: Migratable(ring, db.tables[k][r])
        invariant forall k | 0 <= k < t :: TableByRow(Migrating(ring), db.tables[k], tables[k])
        invariant updated == 0 <==>
          forall k, r | 0 <= k < t && 0 <= r < |db.tables[k]| :: Current(ring, db.tables[k][r])
      {
        var result, count := MigrateTable(db.tables[t], seed);
        if result.Err? {
          rotationInProgress, ok := false, false;
          return;
        }
        tables, updated := tables + [result.value], updated + count;
      }
      db := db.(tables := tables);
      rotationInProgress, ok := false, true;
    }

    /** A process that holds another key than the newest pending rotation asks for does not start. */
    method CheckPending() returns (newest: Option<nat>, ok: bool)
      modifies this`db
      ensures IsNewest(old(db.rotations), newest) && ok == Allowed(ring, old(db.rotations), newest)
      ensures db.tables == old(db.tables)
      ensures db.rotations == if ok then Promoted(old(db.rotations), newest) else old(db.rotations)
    {
      newest := None;
      for i := 0 to |db.rotations|
        invariant newest.Some? ==> newest.value < i
        invariant IsNewest(db.rotations[..i], newest)
      {
        var row := db.rotations[i];
        assert db.rotations[..i + 1] == db.rotations[..i] + [row];
        if row.pending && (newest.None? || db.rotations[newest.value].startedAt < row.startedAt) {
          newest := Some(i);
        }
      }
      assert db.rotations[..|db.rotations|] == db.rotations;
      if newest.None? {
        return newest, true;
      }
      if db.rotations[newest.value].newKeyId != ring.active.id {
        return newest, false;
      }
      db := db.(rotations := Activated(db.rotations, newest.value));
      return newest, true;
    }

    /** A new process with its own ring on the same database: the check comes before the migration. */
    method Start(newRing: Ring, seed: nat) returns (ok: bool, updated: nat)
      requires newRing.Valid()
      modifies this
      ensures ring == newRing && !rotationInProgress
      ensures Started(newRing, old(db), ok, db)
      ensures ok ==> (updated == 0 <==> AllRows(IsCurrent(newRing), old(db.tables)))
    {
      hide AllRows, RowByRow, IsNewest, Allowed, Promoted;
      ring, rotationInProgress := newRing, false;
      var newest, allowed := CheckPending();
      if !allowed {
        assert StartedAfter(newRing, newest, old(db), false, db);
        return false, 0;
      }
      ok, updated := MigratePayloads(seed);
      assert StartedAfter(newRing, newest, old(db), ok, db);
    }

    method ResealTable(newRing: Ring, table: Table, seed: nat) returns (result: Result<Table>)
      requires ring.Valid() && newRing.Valid() && rotationInProgress
      ensures result.Ok? <==> forall r | 0 <= r < |table| :: Opens(ring, table[r])
      ensures result.Ok? ==> TableByRow(Resealing(ring, newRing), table, result.value)
    {
      hide Decrypt;
      var rows := table;
      for r := 0 to |table|
        invariant |rows| == |table| && forall k | r <= k < |table| :: rows[k] == table[k]
        invariant forall k | 0 <= k < r :: Resealed(ring, newRing, table[k], rows[k])
      {
        var raw := Decrypt(ring, rows[r]);
        if raw.Err? {
          return Err(raw.error);
        }
        var written := UpdatePayload(rows, r, Encrypt(newRing, raw.value, seed + r));
        if written.Err? {
          return written;
        }
        rows := written.value;
      }
      result := Ok(rows);
    }

    /** The transaction of a rotation. */
    method Reseal(newRing: Ring, entry: Rotation, seed: nat) returns (ok: bool, count: nat)
      requires ring.Valid() && newRing.Valid()
      modifies this`rotationInProgress, this`db
      ensures !rotationInProgress
      ensures ok <==> AllRows(CanOpen(ring), old(db.tables))
      ensures !ok ==> db == old(db)
      ensures ok ==> RowByRow(Resealing(ring, newRing), old(db.tables), db.tables)
      ensures ok ==> db.rotations == old(db.rotations) + [entry] && count == RowCount(db.tables)
    {
      hide Opens, Resealed;
      rotationInProgress, count := true, 0;
      var tables: seq<Table> := [];
      for t := 0 to |db.tables|
        invariant rotationInProgress && db == old(db) && |tables| == t && count == RowCount(tables)
        invariant forall k, r | 0 <= k < t && 0 <= r < |db.tables[k]| :: Opens(ring, db.tables[k][r])
        invariant forall k | 0 <= k < t :: TableByRow(Resealing(ring, newRing), db.tables[k], tables[k])
      {
        var result := ResealTable(newRing, db.tables[t], seed);
        if result.Err? {
          rotationInProgress, ok := false, false;
          return;
        }
        tables, count := tables + [result.value], count + |result.value|;
      }
      db := Database(tables, db.rotations + [entry]);
      rotationInProgress, ok := false, true;
    }

    /** Seals every row again, current or not, in one transaction with the entry of the rotation log. */
    method Rotate(newKey: Key, envManaged: bool, now: int, seed: nat) returns (ok: bool, reencrypted: nat)
      requires ring.Valid() && newKey.id != ""
      modifies this
      ensures !rotationInProgress
      ensures Rotated(old(ring), newKey, envManaged, old(db), ok, db)
      ensures ring == if ok then WithActiveKey(old(ring), newKey) else old(ring)
      ensures ok ==> reencrypted == RowCount(db.tables)
    {
      reencrypted := 0;
      rotationInProgress := false;
      var newRing := WithActiveKey(ring, newKey);
      if newRing.active.id == ring.active.id || exists i | 0 <= i < |db.rotations| :: db.rotations[i].pending {
        return false, 0;
      }
      ok, reencrypted := Reseal(newRing, Rotation(newKey.id, true, now), seed);
      if !ok {
        return;
      }
      ring := newRing;
      if !envManaged {
        db := db.(rotations := Activated(db.rotations, |db.rotations| - 1));
      }
    }

    /** Restarts and rotations one after the other, in one process after another on the same database. */
    method Perform(events: seq<Event>, seed: nat) returns (ghost states: seq<State>)
      requires ring.Valid() && forall i | 0 <= i < |events| :: WellFormed(events[i])
      modifies this
      ensures Run(events, states)
      ensures states[0] == State(old(ring), old(db)) && states[|events|] == State(ring, db)
    {
      hide Started, Rotated, WithActiveKey;
      states := [State(ring, db)];
      for i := 0 to |events|
        invariant |states| == i + 1 && ring.Valid()
        invariant states[0] == State(old(ring), old(db)) && states[i] == State(ring, db)
        invariant forall k | 0 <= k < i :: Happens(events[k], states[k], states[k + 1])
      {
        assert WellFormed(events[i]);
        match events[i]
        case Restart(newRing) =>
          var ok, updated := Start(newRing, seed);
          states := states + [State(ring, db)];
          assert Step(events[i], states[i], ok, states[i + 1]);
        case Rotate(newKey, envManaged) =>
          var ok, reencrypted := Rotate(newKey, envManaged, i, seed);
          states := states + [State(ring, db)];
          assert Step(events[i], states[i], ok, states[i + 1]);
      }
      forall i | 0 <= i < |events| ensures StepAt(events, states, i) {
        assert Happens(events[i], states[i], states[i + 1]);
      }
    }
  }

  // ---------------------------------------------------------------- what a run keeps

  /** The text a payload stands for, whoever may open it. */
  function Text(p: Payload): Option<string> {
    match p
    case NotJson => None
    case Plain(text) => Some(text)
    case Sealed(_, token) => if token.Token? then Some(token.text) else None
  }

  /** `reg` names the one key behind each identifier; the ring knows some of them. */
  ghost predicate Agrees(reg: string -> Key, ring: Ring) {
    ring.Valid() && forall id | id in ring.keys :: ring.keys[id] == reg(id)
  }

  /** A payload as the application writes it: plain, or sealed with the key its label names. */
  predicate Honest(reg: string -> Key, p: Payload) {
    p.Plain? || (p.Sealed? && p.keyId != "" && p.token.Token? && p.token.key == reg(p.keyId))
  }

  function IsHonest(reg: string -> Key): Payload -> bool { p => Honest(reg, p) }

  function SameText(): (Payload, Payload) -> bool { (p, q) => Text(p) == Text(q) }

  /** An honest row opens exactly when it is plain or its label is in the ring, and to its own text. */
  lemma HonestOpens(reg: string -> Key, ring: Ring, p: Payload)
    requires Agrees(reg, ring) && Honest(reg, p)
    ensures Opens(ring, p) <==> p.Plain? || p.keyId in ring.keys
    ensures Opens(ring, p) ==> Some(Decrypt(ring, p).value) == Text(p)
  {
  }

  datatype Event = Restart(ring: Ring) | Rotate(newKey: Key, envManaged: bool)

  predicate WellFormed(event: Event) {
    match event
    case Restart(ring) => ring.Valid()
    case Rotate(newKey, _) => newKey.id != ""
  }

  datatype State = State(ring: Ring, db: Database)

  ghost predicate Step(event: Event, s: State, ok: bool, t: State) {
    match event
    case Restart(ring) => ring.Valid() && t.ring == ring && Started(ring, s.db, ok, t.db)
    case Rotate(newKey, envManaged) =>
      && s.ring.Valid() && newKey.id != ""
      && Rotated(s.ring, newKey, envManaged, s.db, ok, t.db)
      && t.ring == if ok then WithActiveKey(s.ring, newKey) else s.ring
  }

  /** A run of restarts and rotations, each of which may have failed. */
  ghost predicate Run(events: seq<Event>, states: seq<State>) {
    && |states| == |events| + 1
    && forall i | 0 <= i < |events| :: StepAt(events, states, i)
  }

  ghost predicate StepAt(events: seq<Event>, states: seq<State>, i: nat)
    requires i < |events| < |states|
  {
    Happens(events[i], states[i], states[i + 1])
  }

  ghost predicate Happens(event: Event, s: State, t: State) {
    Step(event, s, true, t) || Step(event, s, false, t)
  }

  ghost predicate EventAgrees(reg: string -> Key, event: Event) {
    match event
    case Restart(ring) => Agrees(reg, ring)
    case Rotate(newKey, _) => reg(newKey.id) == newKey
  }

  /** What holds between the state a run began in and any state it reaches. */
  ghost predicate Kept(reg: string -> Key, s: State, t: State) {
    && Agrees(reg, t.ring)
    && AllRows(IsHonest(reg), t.db.tables)
    && RowByRow(SameText(), s.db.tables, t.db.tables)
    && AtMostOnePending(t.db.rotations)
  }

  lemma StepKeepsTexts(reg: string -> Key, event: Event, s: State, ok: bool, t: State)
    requires Step(event, s, ok, t) && EventAgrees(reg, event) && Kept(reg, s, s)
    ensures Kept(reg, s, t)
  {
    if t.db.tables != s.db.tables {
      forall i, r | 0 <= i < |s.db.tables| && 0 <= r < |s.db.tables[i]|
        ensures Honest(reg, t.db.tables[i][r]) && Text(s.db.tables[i][r]) == Text(t.db.tables[i][r])
      {
        var p := s.db.tables[i][r];
        assert Honest(reg, p) by { assert IsHonest(reg)(p); }
        HonestOpens(reg, s.ring, p);
        HonestOpens(reg, t.ring, p);
      }
    }
  }

  /** Whatever rings the restarts hold and whichever steps fail: no row ever changes what it stands for. */
  lemma {:induction false} RunsKeepTexts(reg: string -> Key, events: seq<Event>, states: seq<State>)
    requires Run(events, states) && Kept(reg, states[0], states[0])
    requires forall i | 0 <= i < |events| :: EventAgrees(reg, events[i])
    ensures Kept(reg, states[0], states[|events|])
  {
    if events != [] {
      var n := |events| - 1;
      assert Run(events[..n], states[..|events|]) by {
        forall i | 0 <= i < n ensures StepAt(events[..n], states[..|events|], i) {
          assert StepAt(events, states, i);
        }
      }
      RunsKeepTexts(reg, events[..n], states[..|events|]);
      assert StepAt(events, states, n);
      var ok := Step(events[n], states[n], true, states[n + 1]);
      StepKeepsTexts(reg, events[n], states[n], ok, states[n + 1]);
    }
  }

  /** A row that is plain, or whose label names a key of the ring. */
  predicate LabelKnown(ring: Ring, p: Payload) {
    p.Plain? || (p.Sealed? && p.keyId in ring.keys)
  }

  predicate AllLabelsKnown(ring: Ring, tables: seq<Table>) {
    forall t, r | 0 <= t < |tables| && 0 <= r < |tables[t]| :: LabelKnown(ring, tables[t][r])
  }

  /** A startup of honest tables fails exactly for a pending rotation to another key, or for a row under
      a key the ring lacks; after a success the process reads every row as it was. */
  lemma StartReadsEverything(reg: string -> Key, ring: Ring, before: Database, ok: bool, later: Database)
    requires Agrees(reg, ring) && AllRows(IsHonest(reg), before.tables) && Started(ring, before, ok, later)
    requires AtMostOnePending(before.rotations)
    ensures ok <==>
      && (forall i: nat | IsPending(before.rotations, i) :: before.rotations[i].newKeyId == ring.active.id)
      && AllLabelsKnown(ring, before.tables)
    ensures ok ==> RowByRow(ReadsAs(ring), before.tables, later.tables)
  {
    hide IsPending, AtMostOnePending, Agrees, AllRows, RowByRow, IsNewest, Allowed;
    HonestRowsMigrate(reg, ring, before.tables);
    var newest :| IsNewest(before.rotations, newest) && StartedAfter(ring, newest, before, ok, later);
    AllowedIff(ring, before.rotations, newest);
    if ok {
      MigratedRowsRead(reg, ring, before.tables, later.tables);
    }
  }

  lemma AllowedIff(ring: Ring, rotations: seq<Rotation>, newest: Option<nat>)
    requires AtMostOnePending(rotations) && IsNewest(rotations, newest)
    ensures Allowed(ring, rotations, newest) <==>
      forall i: nat | IsPending(rotations, i) :: rotations[i].newKeyId == ring.active.id
  {
  }

  lemma HonestRowsMigrate(reg: string -> Key, ring: Ring, tables: seq<Table>)
    requires Agrees(reg, ring) && AllRows(IsHonest(reg), tables)
    ensures AllRows(CanMigrate(ring), tables) <==> AllLabelsKnown(ring, tables)
  {
    forall t, r | 0 <= t < |tables| && 0 <= r < |tables[t]|
      ensures CanMigrate(ring)(tables[t][r]) <==> LabelKnown(ring, tables[t][r])
    {
      assert IsHonest(reg)(tables[t][r]);
      HonestOpens(reg, ring, tables[t][r]);
    }
  }

  lemma MigratedRowReads(reg: string -> Key, ring: Ring, p: Payload, q: Payload)
    requires Agrees(reg, ring) && Honest(reg, p) && Migrated(ring, p, q)
    ensures ReadsAs(ring)(p, q)
  {
    HonestOpens(reg, ring, p);
  }

  lemma MigratedRowsRead(reg: string -> Key, ring: Ring, before: seq<Table>, later: seq<Table>)
    requires Agrees(reg, ring) && AllRows(IsHonest(reg), before) && RowByRow(Migrating(ring), before, later)
    ensures RowByRow(ReadsAs(ring), before, later)
  {
    hide Agrees, Honest, Migrated, ReadsAs;
    forall t | 0 <= t < |before| ensures TableByRow(ReadsAs(ring), before[t], later[t]) {
      forall r | 0 <= r < |before[t]| ensures ReadsAs(ring)(before[t][r], later[t][r]) {
        assert IsHonest(reg)(before[t][r]) && Migrating(ring)(before[t][r], later[t][r]);
        MigratedRowReads(reg, ring, before[t][r], later[t][r]);
      }
    }
  }

  /** A migration leaves every row current, and tables of current rows as they are. */
  lemma MigrationSettles(ring: Ring, before: seq<Table>, later: seq<Table>)
    requires ring.Valid() && RowByRow(Migrating(ring), before, later)
    ensures AllRows(IsCurrent(ring), later)
    ensures AllRows(IsCurrent(ring), before) ==> later == before
  {
    forall t, r | 0 <= t < |before| && 0 <= r < |before[t]|
      ensures Current(ring, later[t][r]) && (Current(ring, before[t][r]) ==> later[t][r] == before[t][r])
    {
      assert Migrating(ring)(before[t][r], later[t][r]);
    }
    if AllRows(IsCurrent(ring), before) {
      forall t | 0 <= t < |before| ensures later[t] == before[t] {
        assert forall r | 0 <= r < |before[t]| :: IsCurrent(ring)(before[t][r]);
      }
    }
  }

  function ReadsAs(ring: Ring): (Payload, Payload) -> bool {
    (p, q) => Current(ring, q) && Opens(ring, q) && Some(Decrypt(ring, q).value) == Text(p)
  }

  /** A second startup with the same ring changes nothing at all. */
  lemma SecondStartChangesNothing(ring: Ring, before: Database, mid: Database, ok: bool, later: Database)
    requires ring.Valid() && AtMostOnePending(before.rotations)
    requires Started(ring, before, true, mid) && Started(ring, mid, ok, later)
    ensures ok && later == mid && NothingPending(mid.rotations)
  {
    MigrationSettles(ring, before.tables, mid.tables);
    assert AllRows(CanMigrate(ring), mid.tables) by {
      assert forall t, r | 0 <= t < |mid.tables| && 0 <= r < |mid.tables[t]| :: IsCurrent(ring)(mid.tables[t][r]);
    }
    if ok {
      MigrationSettles(ring, mid.tables, later.tables);
    }
  }

  lemma ResealedIsCurrent(from: Ring, to: Ring, next: Ring, before: seq<Table>, later: seq<Table>)
    requires to.Valid() && next.active.id == to.active.id && RowByRow(Resealing(from, to), before, later)
    ensures AllRows(IsCurrent(next), later) && AllRows(CanMigrate(next), later)
  {
    forall t, r | 0 <= t < |before| && 0 <= r < |before[t]| ensures Current(next, later[t][r]) {
      assert Resealing(from, to)(before[t][r], later[t][r]);
    }
  }

  /** A rotation whose key still has to be promoted, or that was interrupted before its key was written:
      processes with the former key do not start and touch nothing; a process with the new key starts,
      with or without the former keys, rewrites no row and closes the rotation. */
  lemma RotationSurvivesRestart(ring: Ring, newKey: Key, before: Database, mid: Database,
                                next: Ring, ok: bool, later: Database)
    requires ring.Valid() && newKey.id != "" && Rotated(ring, newKey, true, before, true, mid)
    requires next.Valid() && Started(next, mid, ok, later)
    ensures ok <==> next.active.id == newKey.id
    ensures !ok ==> later == mid
    ensures ok ==> later.tables == mid.tables && NothingPending(later.rotations)
  {
    assert IsPending(mid.rotations, |before.rotations|);
    assert forall i | 0 <= i < |before.rotations| :: mid.rotations[i] == before.rotations[i];
    if next.active.id == newKey.id {
      ResealedIsCurrent(ring, WithActiveKey(ring, newKey), next, before.tables, mid.tables);
      if ok {
        MigrationSettles(next, mid.tables, later.tables);
      }
    }
  }

  /** The text a row gives: a plain row its own, a sealed row the token's if the ring's key for its label sealed it. */
  ghost predicate Gives(ring: Ring, p: Payload, text: string) {
    p == Plain(text) || exists nonce :: SealedWith(ring, p, text, nonce)
  }

  ghost predicate SealedWith(ring: Ring, p: Payload, text: string, nonce: nat) {
    p.Sealed? && p.keyId in ring.keys && p.token == Token(ring.keys[p.keyId], text, nonce)
  }

  lemma OpensIff(ring: Ring, p: Payload, text: string)
    ensures Decrypt(ring, p) == Ok(text) <==> Gives(ring, p, text)
  {
    if p.Sealed? && p.token.Token? && p.keyId in ring.keys && p.token.key == ring.keys[p.keyId] {
      assert SealedWith(ring, p, p.token.text, p.token.nonce);
    }
  }

  /** A row that is not JSON, or that is sealed under another label than the active one and does not open with the
      ring's key for that label, stops a startup; nothing is then rewritten. */
  lemma UnreadableRowStopsStartup(ring: Ring, before: Database, ok: bool, later: Database, t: nat, r: nat)
    requires ring.Valid() && Started(ring, before, ok, later)
    requires t < |before.tables| && r < |before.tables[t]|
    requires var p := before.tables[t][r];
      p.NotJson? || (p.Sealed? && p.keyId != ring.active.id && forall text, nonce :: !SealedWith(ring, p, text, nonce))
    ensures !ok && later.tables == before.tables
  {
    var p := before.tables[t][r];
    if Opens(ring, p) {
      OpensIff(ring, p, Decrypt(ring, p).value);
    }
    assert !CanMigrate(ring)(p);
  }

  /** After a startup every row carries the active label: a row that did so before is the same, any other is sealed
      with the active key and gives the text it gave. */
  lemma StartReseals(ring: Ring, before: Database, later: Database, t: nat, r: nat)
    requires ring.Valid() && Started(ring, before, true, later)
    requires t < |before.tables| && r < |before.tables[t]|
    ensures |later.tables| == |before.tables| && |later.tables[t]| == |before.tables[t]|
    ensures var p, q := before.tables[t][r], later.tables[t][r];
      if p.Sealed? && p.keyId == ring.active.id then q == p
      else exists text, nonce :: Gives(ring, p, text) && q == Sealed(ring.active.id, Token(ring.active, text, nonce))
  {
    var p, q := before.tables[t][r], later.tables[t][r];
    assert Migrating(ring)(p, q);
    if !Current(ring, p) {
      OpensIff(ring, p, Decrypt(ring, p).value);
      assert q == Sealed(ring.active.id, Token(ring.active, Decrypt(ring, p).value, q.token.nonce));
    }
  }

  /** A rotation seals every row with the new key, without exception, and no row changes the text it gives. */
  lemma RotationReseals(ring: Ring, newKey: Key, envManaged: bool, before: Database, later: Database, t: nat, r: nat)
    requires ring.Valid() && newKey.id != "" && Rotated(ring, newKey, envManaged, before, true, later)
    requires t < |before.tables| && r < |before.tables[t]|
    ensures |later.tables| == |before.tables| && |later.tables[t]| == |before.tables[t]|
    ensures exists text, nonce ::
      Gives(ring, before.tables[t][r], text) && later.tables[t][r] == Sealed(newKey.id, Token(newKey, text, nonce))
  {
    var p, q := before.tables[t][r], later.tables[t][r];
    assert Resealing(ring, WithActiveKey(ring, newKey))(p, q);
    OpensIff(ring, p, Decrypt(ring, p).value);
    assert q == Sealed(newKey.id, Token(newKey, Decrypt(ring, p).value, q.token.nonce));
  }

  /** A rotation happens exactly for another key than the active one, with no rotation pending and every row
      readable. */
  lemma RotatesIff(ring: Ring, newKey: Key, envManaged: bool, before: Database, ok: bool, later: Database)
    requires ring.Valid() && newKey.id != "" && Rotated(ring, newKey, envManaged, before, ok, later)
    ensures ok <==>
      && newKey.id != ring.active.id
      && (forall i | 0 <= i < |before.rotations| :: !before.rotations[i].pending)
      && (forall t, r | 0 <= t < |before.tables| && 0 <= r < |before.tables[t]| :: Readable(ring, before.tables[t][r]))
    ensures ok ==> (later.rotations[|later.rotations| - 1].pending <==> envManaged)
  {
    hide Readable, Opens;
    forall t, r | 0 <= t < |before.tables| && 0 <= r < |before.tables[t]|
      ensures CanOpen(ring)(before.tables[t][r]) <==> Readable(ring, before.tables[t][r])
    {
      ReadableIff(ring, before.tables[t][r]);
    }
  }

  ghost predicate Readable(ring: Ring, p: Payload) {
    exists text :: Gives(ring, p, text)
  }

  lemma ReadableIff(ring: Ring, p: Payload)
    ensures Opens(ring, p) <==> Readable(ring, p)
  {
    hide Gives, Decrypt;
    if Opens(ring, p) {
      OpensIff(ring, p, Decrypt(ring, p).value);
    }
    if text :| Gives(ring, p, text) {
      OpensIff(ring, p, text);
    }
  }

  /** A row that gives no text under the ring stops a rotation, which then changes nothing. */
  lemma UnreadableRowStopsRotation(ring: Ring, newKey: Key, envManaged: bool, before: Database, ok: bool, later: Database,
                                   t: nat, r: nat)
    requires ring.Valid() && newKey.id != "" && Rotated(ring, newKey, envManaged, before, ok, later)
    requires t < |before.tables| && r < |before.tables[t]| && forall text :: !Gives(ring, before.tables[t][r], text)
    ensures !ok && later == before
  {
    var p := before.tables[t][r];
    if Opens(ring, p) {
      OpensIff(ring, p, Decrypt(ring, p).value);
    }
    assert !CanOpen(ring)(p);
  }

  /** Startup does not open the rows that carry the active label, so it vouches for the others only. */
  lemma StartVouchesForOthers(ring: Ring, before: Database, later: Database)
    requires ring.Valid() && Started(ring, before, true, later)
    ensures AllRows(CanOpen(ring), later.tables) <==>
      forall t, r | 0 <= t < |before.tables| && 0 <= r < |before.tables[t]| ::
        Current(ring, before.tables[t][r]) ==> Opens(ring, before.tables[t][r])
  {
  }

  /** The check commits before the migration begins: a startup that fails in the migration leaves the
      rotation activated, so that it no longer keeps other keys from starting. */
  lemma FailedStartHasPromoted(ring: Ring, before: Database, ok: bool, later: Database)
    requires ring.Valid() && AtMostOnePending(before.rotations) && Started(ring, before, ok, later)
    requires !AllRows(CanMigrate(ring), before.tables)
    ensures !ok && later.tables == before.tables
    ensures NothingPending(later.rotations) <==>
      forall i: nat | IsPending(before.rotations, i) :: before.rotations[i].newKeyId == ring.active.id
  {
    var newest :| IsNewest(before.rotations, newest) && StartedAfter(ring, newest, before, ok, later);
    AllowedIff(ring, before.rotations, newest);
    if newest.Some? {
      assert IsPending(before.rotations, newest.value);
    }
  }

  /** A damaged row under the active key goes through startup and stops the next rotation. */
  lemma DamagedRowGoesUnnoticed(ring: Ring, newKey: Key, ok: bool, later: Database)
    requires ring.Valid() && newKey.id != ""
    ensures var db := Database([[Sealed(ring.active.id, Garbage)]], []);
      Started(ring, db, true, db) && (Rotated(ring, newKey, true, db, ok, later) ==> !ok)
  {
    var row := Sealed(ring.active.id, Garbage);
    var db := Database([[row]], []);
    assert StartedAfter(ring, None, db, true, db);
    assert !CanOpen(ring)(db.tables[0][0]);
  }
}
