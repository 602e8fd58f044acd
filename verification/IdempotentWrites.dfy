/** The idempotency ledger and the write protocol over it (flood_system/http/idempotency.py and the
    four ledger operations of flood_system/storage/response_repository.py).

    Requests run concurrently: every database transaction, and every handler call, is one step, and
    steps of different requests interleave freely with the passing of time and with crashes. */
module IdempotentWrites {
  import opened Ordering

  /** A scope together with the client's idempotency key. */
  datatype Key = Key(scope: string, token: string)

  datatype Status = Processing | Completed | Indeterminate

  /** The stored record; `owner` names the request that wrote its payload. */
  datatype Record = Record(
    owner: nat, hash: string, status: Status, response: string, replayable: bool, expiresAt: int)

  type Table = map<Key, Record>

  // ---------------------------------------------------------------- the ledger's transactions

  /** Every lookup and reservation first deletes the rows that expired before now. */
  function Purge(table: Table, now: int): Table {
    map key | key in table && table[key].expiresAt >= now :: table[key]
  }

  function Find(table: Table, key: Key): Option<Record> {
    if key in table then Some(table[key]) else None
  }

  predicate IsOpen(table: Table, key: Key, hash: string) {
    key in table && table[key].hash == hash && table[key].status == Processing
  }

  class Ledger {
    var records: Table

    constructor ()
      ensures records == map[]
    {
      records := map[];
    }

    method Get(key: Key, now: int) returns (found: Option<Record>)
      modifies this
      ensures records == Purge(old(records), now) && found == Find(records, key)
    {
      records := Purge(records, now);
      found := if key in records then Some(records[key]) else None;
    }

    /** The unique index refuses a second row for a key. */
    method Reserve(key: Key, record: Record, now: int) returns (reserved: bool)
      requires record.status == Processing
      modifies this
      ensures reserved <==> key !in Purge(old(records), now)
      ensures records == if reserved then Purge(old(records), now)[key := record] else old(records)
    {
      var purged := Purge(records, now);
      reserved := key !in purged;
      if reserved {
        records := purged[key := record];
      }
    }

    /** Updates the row with this key and request hash that is still processing, or fails. */
    method Complete(key: Key, record: Record) returns (ok: bool)
      requires record.status != Processing
      modifies this
      ensures ok <==> IsOpen(old(records), key, record.hash)
      ensures records == if ok then old(records)[key := record] else old(records)
    {
      ok := IsOpen(records, key, record.hash);
      if ok {
        records := records[key := record];
      }
    }

    method Release(key: Key, hash: string) returns (released: bool)
      modifies this
      ensures released <==> IsOpen(old(records), key, hash)
      ensures records == if released then old(records) - {key} else old(records)
    {
      released := IsOpen(records, key, hash);
      if released {
        records := records - {key};
      }
    }
  }

  // ---------------------------------------------------------------- the protocol

  /** What a handler does: it takes effect and answers, refuses with a client error, or fails. A handler
      that refuses or fails may have taken effect before. */
  datatype Outcome =
    | Success(response: string, replayable: bool)
    | Refused(done: Option<string>)
    | Failed(done: Option<string>)

  function EffectOf(outcome: Outcome): Option<string> {
    if outcome.Success? then Some(outcome.response) else outcome.done
  }

  datatype Answer =
    | Fresh(response: string)                    // the request's own handler answered
    | Replayed(owner: nat, response: string)     // the recorded response and whose it is
    | KeyReused | InProgress | Unknown | NotReplayable | Conflict
    | Rejected | HandlerFailed
    | LedgerError                                // completing the reservation failed

  datatype Phase =
    | Arrived
    | Missed                      // lookup found nothing
    | Beaten                      // reservation lost
    | Executing
    | Returned(outcome: Outcome)
    | Answered(answer: Answer)
    | Crashed

  /** A request, with the expiry of the reservation it made and what its handler did, once it returned. */
  datatype Request = Request(
    key: Key, hash: string, phase: Phase, reservation: Option<int>, outcome: Option<Outcome>)
  {
    /** The effect its handler had, if any. */
    function Effect(): Option<string> {
      if outcome.Some? then EffectOf(outcome.value) else None
    }
  }

  datatype State = State(now: int, table: Table, requests: map<nat, Request>)

  datatype Step =
    | Tick(delay: nat)
    | Arrive(id: nat, key: Key, hash: string)
    | Look(id: nat)
    | Reserve(id: nat, expiresAt: int)
    | Recheck(id: nat)
    | Return(id: nat, outcome: Outcome)
    | Settle(id: nat)
    | Crash(id: nat)

  function FromRecord(record: Record, hash: string): Answer {
    if record.hash != hash then KeyReused
    else if record.status == Completed then
      if record.replayable then Replayed(record.owner, record.response) else NotReplayable
    else if record.status == Indeterminate then Unknown
    else InProgress
  }

  predicate Active(r: Request) {
    r.phase.Executing? || r.phase.Returned?
  }

  /** The record a request writes when its handler has returned. */
  function Final(id: nat, hash: string, outcome: Outcome, expiresAt: int): Record {
    if outcome.Success?
    then Record(id, hash, Completed, outcome.response, outcome.replayable, expiresAt)
    else Record(id, hash, Indeterminate, "", false, expiresAt)
  }

  /** The transaction a request runs in its present phase: the new table and the new request. */
  function Act(now: int, table: Table, r: Request, step: Step): Option<(Table, Request)> {
    var t := Purge(table, now);
    match step
    case Look(id) =>
      if !r.phase.Arrived? then None
      else if r.key in t then Some((t, r.(phase := Answered(FromRecord(t[r.key], r.hash)))))
      else Some((t, r.(phase := Missed)))
    case Reserve(id, expiresAt) =>
      if !r.phase.Missed? then None
      else if r.key in t then Some((table, r.(phase := Beaten)))
      else Some((t[r.key := Record(id, r.hash, Processing, "", true, expiresAt)],
                 r.(phase := Executing, reservation := Some(expiresAt))))
    case Recheck(id) =>
      if !r.phase.Beaten? then None
      else if r.key in t then Some((t, r.(phase := Answered(FromRecord(t[r.key], r.hash)))))
      else Some((t, r.(phase := Answered(Conflict))))
    case Return(id, outcome) =>
      if !r.phase.Executing? then None
      else
        Some((table, r.(phase := Returned(outcome), outcome := Some(outcome))))
    case Settle(id) =>
      if !r.phase.Returned? || r.reservation.None? then None
      else if r.phase.outcome.Refused? then
        Some((if IsOpen(table, r.key, r.hash) then table - {r.key} else table, r.(phase := Answered(Rejected))))
      else if !IsOpen(table, r.key, r.hash) then Some((table, r.(phase := Answered(LedgerError))))
      else
        var answer := if r.phase.outcome.Success? then Fresh(r.phase.outcome.response) else HandlerFailed;
        Some((table[r.key := Final(id, r.hash, r.phase.outcome, r.reservation.value)],
              r.(phase := Answered(answer))))
    case Crash(id) => if r.phase.Answered? then None else Some((table, r.(phase := Crashed)))
    case _ => None
  }

  /** One step of the system, or none when the step is not enabled. */
  function Next(s: State, step: Step): Option<State> {
    if step.Tick? then Some(s.(now := s.now + step.delay))
    else if step.Arrive? then
      if step.id in s.requests then None
      else Some(s.(requests := s.requests[step.id := Request(step.key, step.hash, Arrived, None, None)]))
    else if step.id !in s.requests then None
    else
      var done := Act(s.now, s.table, s.requests[step.id], step);
      if done.None? then None
      else Some(State(s.now, done.value.0, s.requests[step.id := done.value.1]))
  }

  const START := State(0, map[], map[])

  // ---------------------------------------------------------------- the handler, run through the ledger

  /** The route's handlers and the ledger they share. Each method runs one stretch of a handler between
      two points where other requests may interleave; `Next` says what it must do. */
  class Server {
    const ledger: Ledger
    var now: int
    var requests: map<nat, Request>

    constructor ()
      ensures fresh(ledger) && View() == START
    {
      ledger := new Ledger();
      now, requests := 0, map[];
    }

    ghost function View(): State
      reads this, ledger
    {
      State(now, ledger.records, requests)
    }

    method Advance(delay: nat)
      modifies this
      ensures Next(old(View()), Tick(delay)) == Some(View())
    {
      now := now + delay;
    }

    method Admit(id: nat, key: Key, hash: string)
      requires id !in requests
      modifies this
      ensures Next(old(View()), Arrive(id, key, hash)) == Some(View())
    {
      requests := requests[id := Request(key, hash, Arrived, None, None)];
    }

    /** The first lookup. */
    method LookUp(id: nat)
      requires id in requests && requests[id].phase.Arrived?
      modifies this, ledger
      ensures Next(old(View()), Look(id)) == Some(View())
    {
      var r := requests[id];
      var existing := ledger.Get(r.key, now);
      var phase := if existing.Some? then Answered(FromRecord(existing.value, r.hash)) else Missed;
      requests := requests[id := r.(phase := phase)];
    }

    /** The reservation; a request that loses it looks once more. */
    method Claim(id: nat, expiresAt: int)
      requires id in requests && requests[id].phase.Missed?
      modifies this, ledger
      ensures Next(old(View()), Reserve(id, expiresAt)) == Some(View())
    {
      var r := requests[id];
      var reserved := ledger.Reserve(r.key, Record(id, r.hash, Processing, "", true, expiresAt), now);
      if reserved {
        requests := requests[id := r.(phase := Executing, reservation := Some(expiresAt))];
      } else {
        requests := requests[id := r.(phase := Beaten)];
      }
    }

    method LookAgain(id: nat)
      requires id in requests && requests[id].phase.Beaten?
      modifies this, ledger
      ensures Next(old(View()), Recheck(id)) == Some(View())
    {
      var r := requests[id];
      var existing := ledger.Get(r.key, now);
      var answer := if existing.Some? then FromRecord(existing.value, r.hash) else Conflict;
      requests := requests[id := r.(phase := Answered(answer))];
    }

    method HandlerReturns(id: nat, outcome: Outcome)
      requires id in requests && requests[id].phase.Executing?
      modifies this
      ensures Next(old(View()), Return(id, outcome)) == Some(View())
    {
      requests := requests[id := requests[id].(phase := Returned(outcome), outcome := Some(outcome))];
    }

    /** What follows the handler: release after a refusal, otherwise completion, which may fail. */
    method SettleRequest(id: nat)
      requires id in requests && requests[id].phase.Returned? && requests[id].reservation.Some?
      modifies this, ledger
      ensures Next(old(View()), Settle(id)) == Some(View())
    {
      var r := requests[id];
      var answer: Answer;
      if r.phase.outcome.Refused? {
        var _ := ledger.Release(r.key, r.hash);
        answer := Rejected;
      } else {
        var completed := ledger.Complete(r.key, Final(id, r.hash, r.phase.outcome, r.reservation.value));
        if !completed {
          answer := LedgerError;
        } else if r.phase.outcome.Success? {
          answer := Fresh(r.phase.outcome.response);
        } else {
          answer := HandlerFailed;
        }
      }
      requests := requests[id := r.(phase := Answered(answer))];
    }

    method Abort(id: nat)
      requires id in requests && !requests[id].phase.Answered?
      modifies this
      ensures Next(old(View()), Crash(id)) == Some(View())
    {
      requests := requests[id := requests[id].(phase := Crashed)];
    }

    /** One step of the schedule, if it is enabled. */
    method Perform(step: Step) returns (enabled: bool)
      modifies this, ledger
      ensures enabled <==> Next(old(View()), step).Some?
      ensures View() == if enabled then Next(old(View()), step).value else old(View())
    {
      enabled := false;
      match step
      case Tick(delay) =>
        Advance(delay);
        enabled := true;
      case Arrive(id, key, hash) =>
        if id !in requests { Admit(id, key, hash); enabled := true; }
      case Look(id) =>
        if id in requests && requests[id].phase.Arrived? { LookUp(id); enabled := true; }
      case Reserve(id, expiresAt) =>
        if id in requests && requests[id].phase.Missed? { Claim(id, expiresAt); enabled := true; }
      case Recheck(id) =>
        if id in requests && requests[id].phase.Beaten? { LookAgain(id); enabled := true; }
      case Return(id, outcome) =>
        if id in requests && requests[id].phase.Executing? { HandlerReturns(id, outcome); enabled := true; }
      case Settle(id) =>
        if id in requests && requests[id].phase.Returned? && requests[id].reservation.Some? {
          SettleRequest(id);
          enabled := true;
        }
      case Crash(id) =>
        if id in requests && !requests[id].phase.Answered? { Abort(id); enabled := true; }
    }

    /** Any schedule, from any state of the server. */
    method Serve(steps: seq<Step>) returns (enabled: bool)
      modifies this, ledger
      ensures enabled <==> Run(old(View()), steps).Some?
      ensures enabled ==> Run(old(View()), steps) == Some(View())
    {
      for i := 0 to |steps|
        invariant Run(old(View()), steps[..i]) == Some(View())
      {
        assert steps[..i + 1][..i] == steps[..i];
        enabled := Perform(steps[i]);
        if !enabled {
          Stuck(old(View()), steps, i + 1);
          return;
        }
      }
      assert steps[..|steps|] == steps;
      enabled := true;
    }
  }

  /** Some request is still between reserving and settling although its reservation has expired. */
  predicate Overdue(s: State) {
    exists id | id in s.requests ::
      Active(s.requests[id]) && s.requests[id].reservation.Some? && s.requests[id].reservation.value < s.now
  }

  /** The state after the steps, provided each of them was enabled. */
  function Run(s: State, steps: seq<Step>): Option<State> {
    if steps == [] then Some(s)
    else
      var before := Run(s, steps[..|steps| - 1]);
      if before.None? then None else Next(before.value, steps[|steps| - 1])
  }

  lemma {:induction false} Stuck(s: State, steps: seq<Step>, n: nat)
    requires n <= |steps| && Run(s, steps[..n]).None?
    ensures Run(s, steps).None?
  {
    if n < |steps| {
      var front := steps[..|steps| - 1];
      assert front[..n] == steps[..n];
      Stuck(s, front, n);
    } else {
      assert steps[..n] == steps;
    }
  }

  /** No state along the run is overdue. */
  predicate Timely(s: State, steps: seq<Step>) {
    if steps == [] then !Overdue(s)
    else
      && Timely(s, steps[..|steps| - 1])
      && (Run(s, steps).Some? ==> !Overdue(Run(s, steps).value))
  }

  // ---------------------------------------------------------------- what the ledger lets a request see

  /** The record of a key as anyone can see it at some time. */
  function Live(table: Table, key: Key, time: int): Option<Record> {
    if key in table && table[key].expiresAt >= time then Some(table[key]) else None
  }

  /** The table after a step, to whoever looks from then on, differs at one key only, if at all. */
  ghost predicate Differs(before: Table, later: Table, now: int, key: Key, record: Option<Record>) {
    forall k, time | time >= now :: Live(later, k, time) ==
      if k != key then Live(before, k, time)
      else if record.Some? && record.value.expiresAt >= time then record else None
  }

  ghost predicate LooksTheSame(before: Table, later: Table, now: int) {
    forall k, time | time >= now :: Live(later, k, time) == Live(before, k, time)
  }

  /** A request that is about to look up its key, for the first time or after it lost the reservation. */
  predicate Looks(r: Request) {
    r.phase.Arrived? || r.phase.Beaten?
  }

  function LookupOf(r: Request, id: nat): Step {
    if r.phase.Arrived? then Look(id) else Recheck(id)
  }

  /** A lookup answers from the unexpired record of the key; without one the first lookup goes on and the
      second reports a conflict; and the rows it deletes are rows that nobody can see any more. */
  lemma LookupIsObservation(s: State, id: nat)
    requires id in s.requests && Looks(s.requests[id])
    ensures var r, t := s.requests[id], Next(s, LookupOf(s.requests[id], id));
      && t.Some? && LooksTheSame(s.table, t.value.table, s.now)
      && t.value.requests[id].phase == match Live(s.table, r.key, s.now)
           case None => if r.phase.Arrived? then Missed else Answered(Conflict)
           case Some(record) => Answered(FromRecord(record, r.hash))
  {
  }

  /** A reservation succeeds exactly when no unexpired record has the key. It then shuts out every other
      request for the key until it expires, and concerns no other key; a lost one changes nothing. */
  lemma ReservationExcludes(s: State, id: nat, expiresAt: int, other: nat, later: int)
    requires id in s.requests && s.requests[id].phase.Missed?
    requires other in s.requests && other != id && s.requests[other].key == s.requests[id].key
    ensures var r, t := s.requests[id], Next(s, Reserve(id, expiresAt));
      && t.Some? && (t.value.requests[id].phase == Executing <==> Live(s.table, r.key, s.now).None?)
      && (t.value.requests[id].phase == Executing ==>
            && Differs(s.table, t.value.table, s.now, r.key, Some(Record(id, r.hash, Processing, "", true, expiresAt)))
            && (s.requests[other].phase.Missed? && s.now <= expiresAt ==>
                  Next(t.value, Reserve(other, later)).value.requests[other].phase == Beaten))
      && (t.value.requests[id].phase != Executing ==> t.value.table == s.table)
  {
  }

  /** Settling closes, or after a refusal removes, the open record of the key and content, whoever made it,
      and without one leaves the ledger alone; a success is reported exactly when the record was open. */
  lemma SettlingNeedsAnOpenRecord(s: State, id: nat)
    requires id in s.requests && s.requests[id].phase.Returned? && s.requests[id].reservation.Some?
    ensures var r, t := s.requests[id], Next(s, Settle(id));
      && t.Some?
      && (!IsOpen(s.table, r.key, r.hash) ==> t.value.table == s.table)
      && (IsOpen(s.table, r.key, r.hash) ==> Differs(s.table, t.value.table, s.now, r.key,
            if r.phase.outcome.Refused? then None
            else Some(Final(id, r.hash, r.phase.outcome, r.reservation.value))))
      && (t.value.requests[id].phase == Answered(LedgerError) <==>
            !r.phase.outcome.Refused? && !IsOpen(s.table, r.key, r.hash))
      && (t.value.requests[id].phase.answer.Fresh? <==>
            r.phase.outcome.Success? && IsOpen(s.table, r.key, r.hash))
  {
  }

  // ---------------------------------------------------------------- replies are truthful in every run

  /** The owner's handler took effect with this response, for this key and request. */
  predicate Stands(requests: map<nat, Request>, owner: nat, key: Key, hash: string, response: string) {
    && owner in requests && requests[owner].key == key && requests[owner].hash == hash
    && requests[owner].Effect() == Some(response)
  }

  predicate TruthfulRequest(requests: map<nat, Request>, id: nat)
    requires id in requests
  {
    var r := requests[id];
    && (r.phase.Arrived? || r.phase.Missed? || r.phase.Beaten? || r.phase.Executing? ==> r.Effect().None?)
    && (r.phase.Returned? && r.phase.outcome.Success? ==> r.Effect() == Some(r.phase.outcome.response))
    && (r.phase.Answered? && r.phase.answer.Fresh? ==> r.Effect() == Some(r.phase.answer.response))
    && (r.phase.Answered? && r.phase.answer.Replayed? ==>
          Stands(requests, r.phase.answer.owner, r.key, r.hash, r.phase.answer.response))
  }

  /** Completed records and successful answers all stand for an effect that happened, under the same
      key and for the same request content. */
  predicate Truthful(s: State) {
    && (forall key | key in s.table && s.table[key].status == Completed ::
          Stands(s.requests, s.table[key].owner, key, s.table[key].hash, s.table[key].response))
    && (forall id | id in s.requests :: TruthfulRequest(s.requests, id))
  }

  /** An effect, once had, stays on record, so what stood keeps standing. */
  lemma StandsPersists(s: State, step: Step, owner: nat, key: Key, hash: string, response: string)
    requires Truthful(s) && Next(s, step).Some? && Stands(s.requests, owner, key, hash, response)
    ensures Stands(Next(s, step).value.requests, owner, key, hash, response)
  {
    assert TruthfulRequest(s.requests, owner);
  }

  lemma ActorStaysTruthful(s: State, step: Step)
    requires Truthful(s) && Next(s, step).Some? && !step.Tick?
    ensures TruthfulRequest(Next(s, step).value.requests, step.id)
  {
    if step.id in s.requests {
      assert TruthfulRequest(s.requests, step.id);
    }
  }

  lemma NextKeepsTruthful(s: State, step: Step)
    requires Truthful(s) && Next(s, step).Some?
    ensures Truthful(Next(s, step).value)
  {
    var t := Next(s, step).value;
    forall id | id in t.requests ensures TruthfulRequest(t.requests, id) {
      if step.Tick? || id != step.id {
        assert TruthfulRequest(s.requests, id) && t.requests[id] == s.requests[id];
        var r := s.requests[id];
        if r.phase.Answered? && r.phase.answer.Replayed? {
          StandsPersists(s, step, r.phase.answer.owner, r.key, r.hash, r.phase.answer.response);
        }
      } else {
        ActorStaysTruthful(s, step);
      }
    }
    forall key | key in t.table && t.table[key].status == Completed
      ensures Stands(t.requests, t.table[key].owner, key, t.table[key].hash, t.table[key].response)
    {
      if key in s.table && t.table[key] == s.table[key] {
        StandsPersists(s, step, t.table[key].owner, key, t.table[key].hash, t.table[key].response);
      } else {
        assert TruthfulRequest(s.requests, step.id);
      }
    }
  }

  /** In every run, timely or not: whatever a client is told succeeded, did, for its own request. */
  lemma {:induction false} RunsAreTruthful(steps: seq<Step>)
    requires Run(START, steps).Some?
    ensures Truthful(Run(START, steps).value)
  {
    hide Next, Truthful;
    if steps == [] {
      StartIsTruthful();
    } else {
      RunsAreTruthful(steps[..|steps| - 1]);
      NextKeepsTruthful(Run(START, steps[..|steps| - 1]).value, steps[|steps| - 1]);
    }
  }

  lemma StartIsTruthful()
    ensures Truthful(START)
  {
  }

  // ---------------------------------------------------------------- at most one effect in timely runs

  /** The record tells how the handler ended: a success with its response, or an unknown end. */
  predicate ClosedWith(record: Record, outcome: Outcome) {
    match outcome
    case Success(response, replayable) =>
      record.status == Completed && record.response == response && record.replayable == replayable
    case Refused(_) => false
    case Failed(_) => record.status == Indeterminate
  }

  /** The request holds the record of its key: open until it is answered, closed by it afterwards. */
  predicate Holds(s: State, id: nat)
    requires id in s.requests
  {
    var r := s.requests[id];
    && r.reservation.Some? && r.key in s.table
    && s.table[r.key].owner == id && s.table[r.key].hash == r.hash
    && s.table[r.key].expiresAt == r.reservation.value
    && (if r.phase.Answered? then r.outcome.Some? && ClosedWith(s.table[r.key], r.outcome.value)
        else s.table[r.key].status == Processing)
  }

  /** The handler was called, and the client was not told that it refused. */
  predicate Protected(r: Request) {
    r.reservation.Some? && r.phase != Answered(Rejected)
  }

  /** The handler was called and may have taken effect: it did, or it is not known to have refused. */
  predicate MayHaveActed(r: Request) {
    r.reservation.Some? && (r.phase == Answered(Rejected) ==> r.Effect().Some?)
  }

  /** Requests in flight, and requests that were not refused and whose reservation has not expired,
      hold the record of their key; no request ever lost its reservation. */
  predicate Guarded(s: State) {
    forall id | id in s.requests :: GuardedRequest(s, id)
  }

  predicate GuardedRequest(s: State, id: nat)
    requires id in s.requests
  {
    var r := s.requests[id];
    && (Active(r) ==> r.reservation.Some?)
    && (r.phase.Returned? ==> r.outcome == Some(r.phase.outcome))
    && (r.phase.Arrived? || r.phase.Missed? || r.phase.Beaten? ==> r.reservation.None?)
    && (Protected(r) && r.reservation.value >= s.now ==> Holds(s, id))
    && r.phase != Answered(LedgerError)
  }

  /** The request that steps holds the record of its key afterwards, if it has to. */
  lemma ActorStaysGuarded(s: State, step: Step)
    requires Guarded(s) && !Overdue(s) && !step.Tick? && Next(s, step).Some?
    ensures GuardedRequest(Next(s, step).value, step.id)
  {
    if step.id in s.requests {
      assert GuardedRequest(s, step.id);
    }
  }

  /** No step takes the record of another request that was not refused and has not expired. */
  lemma OthersStayGuarded(s: State, step: Step, id: nat)
    requires Guarded(s) && !Overdue(s) && Next(s, step).Some?
    requires id in s.requests && (step.Tick? || id != step.id)
    ensures GuardedRequest(Next(s, step).value, id)
  {
    assert GuardedRequest(s, id);
    if !step.Tick? && step.id in s.requests {
      assert GuardedRequest(s, step.id);
    }
  }

  lemma NextKeepsGuarded(s: State, step: Step)
    requires Guarded(s) && !Overdue(s) && Next(s, step).Some?
    ensures Guarded(Next(s, step).value)
  {
    hide Overdue, GuardedRequest;
    forall id | id in Next(s, step).value.requests ensures GuardedRequest(Next(s, step).value, id) {
      if step.Tick? || id != step.id {
        OthersStayGuarded(s, step, id);
      } else {
        ActorStaysGuarded(s, step);
      }
    }
  }

  lemma {:induction false} TimelyRunsAreGuarded(steps: seq<Step>)
    requires Run(START, steps).Some? && Timely(START, steps)
    ensures Guarded(Run(START, steps).value) && !Overdue(Run(START, steps).value)
  {
    hide Next, Overdue;
    if steps != [] {
      var before := steps[..|steps| - 1];
      TimelyRunsAreGuarded(before);
      NextKeepsGuarded(Run(START, before).value, steps[|steps| - 1]);
    }
  }

  predicate Unexpired(s: State, id: nat)
    requires id in s.requests
  {
    var r := s.requests[id];
    Active(r) || (r.reservation.Some? && r.reservation.value >= s.now)
  }

  /** After any run in which every handler settled before its reservation expired: two requests with one
      key that may both have acted, under reservations that have not expired, include one that refused
      after acting; and completing a reservation never failed. */
  lemma SecondEffectFollowsRefusal(steps: seq<Step>, i: nat, j: nat)
    requires Run(START, steps).Some? && Timely(START, steps)
    requires var s := Run(START, steps).value;
             && i in s.requests && j in s.requests && i != j && s.requests[i].key == s.requests[j].key
             && MayHaveActed(s.requests[i]) && MayHaveActed(s.requests[j])
             && Unexpired(s, i) && Unexpired(s, j)
    ensures var s := Run(START, steps).value;
            s.requests[i].phase == Answered(Rejected) || s.requests[j].phase == Answered(Rejected)
    ensures Run(START, steps).value.requests[i].phase != Answered(LedgerError)
  {
    hide Next, Run, Timely;
    TimelyRunsAreGuarded(steps);
    var s := Run(START, steps).value;
    assert GuardedRequest(s, i) && GuardedRequest(s, j);
  }

  /** No handler takes effect and refuses nevertheless. */
  predicate RefusesCleanly(step: Step) {
    step.Return? && step.outcome.Refused? ==> step.outcome.done.None?
  }

  /** A refusal that a client has been told of, or is about to be, had no effect. */
  predicate CleanlyRefused(s: State) {
    forall id | id in s.requests ::
      var r := s.requests[id];
      && (r.phase.Returned? && r.phase.outcome.Refused? ==> r.Effect().None?)
      && (r.phase == Answered(Rejected) ==> r.Effect().None?)
  }

  lemma NextKeepsCleanlyRefused(s: State, step: Step)
    requires CleanlyRefused(s) && RefusesCleanly(step) && Next(s, step).Some?
    ensures CleanlyRefused(Next(s, step).value)
  {
  }

  lemma {:induction false} CleanRunsRefuseCleanly(steps: seq<Step>)
    requires Run(START, steps).Some? && forall i | 0 <= i < |steps| :: RefusesCleanly(steps[i])
    ensures CleanlyRefused(Run(START, steps).value)
  {
    hide Next, CleanlyRefused;
    if steps == [] {
      NothingRefused();
    } else {
      var before := steps[..|steps| - 1];
      CleanRunsRefuseCleanly(before);
      NextKeepsCleanlyRefused(Run(START, before).value, steps[|steps| - 1]);
    }
  }

  lemma NothingRefused()
    ensures CleanlyRefused(START)
  {
  }

  /** Handlers that settle in time and never refuse after acting: of all requests with one key whose
      reservation has not expired, at most one may have taken effect. */
  lemma AtMostOneEffect(steps: seq<Step>, i: nat, j: nat)
    requires Run(START, steps).Some? && Timely(START, steps)
    requires forall k | 0 <= k < |steps| :: RefusesCleanly(steps[k])
    requires var s := Run(START, steps).value;
             && i in s.requests && j in s.requests && s.requests[i].key == s.requests[j].key
             && MayHaveActed(s.requests[i]) && MayHaveActed(s.requests[j])
             && Unexpired(s, i) && Unexpired(s, j)
    ensures i == j
  {
    hide Next, Run, Timely;
    CleanRunsRefuseCleanly(steps);
    if i != j {
      SecondEffectFollowsRefusal(steps, i, j);
    }
  }

  /** Until the reservation of a request expires, what its repetition is answered depends on how far its
      handler got. */
  lemma RepetitionIsAnswered(s: State, i: nat, j: nat)
    requires Guarded(s) && i in s.requests && j in s.requests
    requires Looks(s.requests[j]) && s.requests[j].key == s.requests[i].key
    requires s.requests[i].reservation.Some? && s.requests[i].reservation.value >= s.now
    requires s.requests[i].phase != Answered(Rejected)
    ensures Next(s, LookupOf(s.requests[j], j)).Some?
    ensures Next(s, LookupOf(s.requests[j], j)).value.requests[j].phase == Answered(
      if s.requests[j].hash != s.requests[i].hash then KeyReused
      else if !s.requests[i].phase.Answered? then InProgress
      else
        match s.requests[i].outcome
        case Some(Success(response, true)) => Replayed(i, response)
        case Some(Success(_, false)) => NotReplayable
        case _ => Unknown)
  {
    assert GuardedRequest(s, i) && Holds(s, i);
    assert s.requests[i].key in Purge(s.table, s.now);
  }

  /** Over timely runs: a write that succeeded, and was answered, is replayed with its response if that was
      kept and refused only if it was not; one whose handler failed is refused as unknown; and while the
      handler runs, or after its process died, the repetition is told to wait. */
  lemma RepetitionIsReplayed(steps: seq<Step>, i: nat, j: nat)
    requires Run(START, steps).Some? && Timely(START, steps)
    requires var s := Run(START, steps).value;
             && i in s.requests && j in s.requests && Looks(s.requests[j])
             && s.requests[j].key == s.requests[i].key && s.requests[j].hash == s.requests[i].hash
             && s.requests[i].reservation.Some? && s.requests[i].reservation.value >= s.now
    ensures var s := Run(START, steps).value;
            var r, again := s.requests[i], Next(s, LookupOf(s.requests[j], j));
            && again.Some?
            && (r.phase.Executing? || r.phase.Returned? || r.phase.Crashed? ==>
                  again.value.requests[j].phase == Answered(InProgress))
            && (r.phase.Answered? && r.outcome.Some? && r.outcome.value.Success? ==>
                  again.value.requests[j].phase == Answered(
                    if r.outcome.value.replayable then Replayed(i, r.outcome.value.response) else NotReplayable))
            && (r.phase.Answered? && r.outcome.Some? && r.outcome.value.Failed? ==>
                  again.value.requests[j].phase == Answered(Unknown))
  {
    hide Run, Timely, Next, Guarded;
    TimelyRunsAreGuarded(steps);
    OutcomesAreKept(steps);
    var s := Run(START, steps).value;
    assert OutcomeFits(s.requests[i]);
    if s.requests[i].phase != Answered(Rejected) {
      RepetitionIsAnswered(s, i, j);
    } else {
      LookIsEnabled(s, j);
    }
  }

  lemma LookIsEnabled(s: State, id: nat)
    requires id in s.requests && Looks(s.requests[id])
    ensures Next(s, LookupOf(s.requests[id], id)).Some?
  {
  }

  /** The answer a client got from its own handler is the one that handler's outcome calls for. */
  predicate OutcomeFits(r: Request) {
    && (r.phase.Returned? ==> r.outcome == Some(r.phase.outcome))
    && (r.phase == Answered(Rejected) ==> r.outcome.Some? && r.outcome.value.Refused?)
    && (r.phase.Answered? && r.phase.answer.Fresh? ==>
          r.outcome.Some? && r.outcome.value.Success? && r.outcome.value.response == r.phase.answer.response)
    && (r.phase == Answered(HandlerFailed) ==> r.outcome.Some? && r.outcome.value.Failed?)
  }

  lemma {:induction false} OutcomesAreKept(steps: seq<Step>)
    requires Run(START, steps).Some?
    ensures forall id | id in Run(START, steps).value.requests :: OutcomeFits(Run(START, steps).value.requests[id])
  {
    hide Next, OutcomeFits;
    if steps != [] {
      var before := steps[..|steps| - 1];
      OutcomesAreKept(before);
      NextKeepsOutcomes(Run(START, before).value, steps[|steps| - 1]);
    }
  }

  lemma NextKeepsOutcomes(s: State, step: Step)
    requires Next(s, step).Some? && forall id | id in s.requests :: OutcomeFits(s.requests[id])
    ensures forall id | id in Next(s, step).value.requests :: OutcomeFits(Next(s, step).value.requests[id])
  {
  }

  /** A refused write leaves the key free for a corrected one. */
  lemma RefusalFreesTheKey(s: State, id: nat)
    requires Guarded(s) && !Overdue(s) && id in s.requests
    requires s.requests[id].phase.Returned? && s.requests[id].phase.outcome.Refused?
    ensures Next(s, Settle(id)).Some? && s.requests[id].key !in Next(s, Settle(id)).value.table
  {
    assert GuardedRequest(s, id) && Holds(s, id);
  }

  lemma {:induction false} RunConcat(s: State, first: seq<Step>, second: seq<Step>)
    requires Run(s, first).Some?
    ensures Run(s, first + second) == Run(Run(s, first).value, second)
  {
    hide Next;
    if second == [] {
      assert first + second == first;
    } else {
      var init := second[..|second| - 1];
      RunConcat(s, first, init);
      assert (first + second)[..|first + second| - 1] == first + init;
    }
  }

  lemma RunFour(s: State, a: seq<Step>, b: seq<Step>, c: seq<Step>, d: seq<Step>, s1: State, s2: State, s3: State)
    requires Run(s, a) == Some(s1) && Run(s1, b) == Some(s2) && Run(s2, c) == Some(s3)
    ensures Run(s, a + b + c + d) == Run(s3, d)
  {
    hide Run;
    RunConcat(s, a, b);
    RunConcat(s, a + b, c);
    RunConcat(s, a + b + c, d);
  }

  lemma RunOne(s: State, step: Step)
    ensures Run(s, [step]) == Next(s, step)
  {
    hide Next;
    assert [step][..0] == [];
  }

  /** A request that finds the key free, reserves it and takes effect. */
  function Write(id: nat, key: Key, hash: string, expiresAt: int): seq<Step> {
    [Arrive(id, key, hash)] + [Look(id)] + [Reserve(id, expiresAt)] + [Return(id, Success("", true))]
  }

  function Written(s: State, id: nat, key: Key, hash: string, expiresAt: int): State {
    State(s.now,
          Purge(s.table, s.now)[key := Record(id, hash, Processing, "", true, expiresAt)],
          s.requests[id := Request(key, hash, Returned(Success("", true)), Some(expiresAt), Some(Success("", true)))])
  }

  lemma WriteTakesEffect(s: State, id: nat, key: Key, hash: string, expiresAt: int)
    requires id !in s.requests && (key in s.table ==> s.table[key].expiresAt < s.now)
    ensures Run(s, Write(id, key, hash, expiresAt)) == Some(Written(s, id, key, hash, expiresAt))
  {
    var s1 := Next(s, Arrive(id, key, hash)).value;
    var s2 := Next(s1, Look(id)).value;
    var s3 := Next(s2, Reserve(id, expiresAt)).value;
    assert s2.requests == s.requests[id := Request(key, hash, Missed, None, None)];
    assert s2.table == Purge(s.table, s.now) == Purge(s2.table, s.now);
    assert Next(s3, Return(id, Success("", true))) == Some(Written(s, id, key, hash, expiresAt)) by {
      assert s3.requests[id].phase == Executing;
      assert s3.requests[id := s3.requests[id].(phase := Returned(Success("", true)), outcome := Some(Success("", true)))]
        == s.requests[id := Request(key, hash, Returned(Success("", true)), Some(expiresAt), Some(Success("", true)))];
    }
    hide Run, Next;
    RunOne(s, Arrive(id, key, hash));
    RunOne(s1, Look(id));
    RunOne(s2, Reserve(id, expiresAt));
    RunOne(s3, Return(id, Success("", true)));
    RunConcat(s, [Arrive(id, key, hash)], [Look(id)]);
    RunConcat(s, [Arrive(id, key, hash)] + [Look(id)], [Reserve(id, expiresAt)]);
    RunConcat(s, [Arrive(id, key, hash)] + [Look(id)] + [Reserve(id, expiresAt)], [Return(id, Success("", true))]);
  }

  /** A request that outlived its reservation closes whatever open record its key now has. */
  lemma LateSettleClosesAnother(s: State, a: nat)
    requires a in s.requests && s.requests[a].phase.Executing? && s.requests[a].reservation.Some?
    requires IsOpen(s.table, s.requests[a].key, s.requests[a].hash)
    ensures var r := s.requests[a];
            Run(s, [Return(a, Success("", true))] + [Settle(a)])
            == Some(State(s.now,
                 s.table[r.key := Record(a, r.hash, Completed, "", true, r.reservation.value)],
                 s.requests[a := r.(phase := Answered(Fresh("")), outcome := Some(Success("", true)))]))
  {
    var r := s.requests[a];
    var s1 := Next(s, Return(a, Success("", true))).value;
    assert s1.requests[a := r.(phase := Answered(Fresh("")), outcome := Some(Success("", true)))]
      == s.requests[a := r.(phase := Answered(Fresh("")), outcome := Some(Success("", true)))];
    RunOne(s, Return(a, Success("", true)));
    RunOne(s1, Settle(a));
    RunConcat(s, [Return(a, Success("", true))], [Settle(a)]);
  }

  /** The schedule that defeats the ledger once `a` outlives its reservation: `b` reserves and takes
      effect, `a` closes the record of `b` under its own expired date, and `c` finds the key free. */
  function Overrun(a: nat, b: nat, c: nat, key: Key, hash: string, delay: nat, expiresAt: int): seq<Step> {
    [Tick(delay)] + Write(b, key, hash, expiresAt)
    + ([Return(a, Success("", true))] + [Settle(a)]) + Write(c, key, hash, expiresAt)
  }

  predicate TookEffect(s: State, id: nat, key: Key, expiresAt: int) {
    id in s.requests && s.requests[id].key == key && s.requests[id].Effect().Some?
    && s.requests[id].reservation == Some(expiresAt)
  }

  /** Without the clock moving and with reservations for the future, nothing becomes overdue. */
  lemma {:induction false} StandstillIsTimely(s: State, steps: seq<Step>)
    requires !Overdue(s)
    requires forall i | 0 <= i < |steps| :: !steps[i].Tick? && (steps[i].Reserve? ==> steps[i].expiresAt >= s.now)
    ensures Timely(s, steps)
    ensures Run(s, steps).Some? ==> Run(s, steps).value.now == s.now && !Overdue(Run(s, steps).value)
  {
    hide Next, Overdue;
    if steps != [] {
      var before := steps[..|steps| - 1];
      StandstillIsTimely(s, before);
      if Run(s, before).Some? && Run(s, steps).Some? {
        StandstillStep(Run(s, before).value, steps[|steps| - 1]);
      }
    }
  }

  lemma StandstillStep(s: State, step: Step)
    requires !Overdue(s) && Next(s, step).Some? && !step.Tick? && (step.Reserve? ==> step.expiresAt >= s.now)
    ensures Next(s, step).value.now == s.now && !Overdue(Next(s, step).value)
  {
  }

  /** A handler that acts and refuses, and the repetition of its request. */
  function Repeated(a: nat, done: string, b: nat, key: Key, hash: string, expiresAt: int): seq<Step> {
    ([Return(a, Refused(Some(done)))] + [Settle(a)]) + Write(b, key, hash, expiresAt)
  }

  lemma RefusalLeavesNoRecord(s: State, a: nat, done: string)
    requires a in s.requests && s.requests[a].phase.Executing? && s.requests[a].reservation.Some?
    requires IsOpen(s.table, s.requests[a].key, s.requests[a].hash)
    ensures var r := s.requests[a];
            Run(s, [Return(a, Refused(Some(done)))] + [Settle(a)])
            == Some(State(s.now, s.table - {r.key},
                 s.requests[a := r.(phase := Answered(Rejected), outcome := Some(Refused(Some(done))))]))
  {
    var r := s.requests[a];
    var s1 := Next(s, Return(a, Refused(Some(done)))).value;
    assert s1.requests[a := r.(phase := Answered(Rejected), outcome := Some(Refused(Some(done))))]
      == s.requests[a := r.(phase := Answered(Rejected), outcome := Some(Refused(Some(done))))];
    RunOne(s, Return(a, Refused(Some(done))));
    RunOne(s1, Settle(a));
    RunConcat(s, [Return(a, Refused(Some(done)))], [Settle(a)]);
  }

  /** Refusing cleanly is needed: from every guarded state in which a handler runs, if it acts and then
      refuses, its repetition acts again, with every handler in time. */
  lemma CleanRefusalIsNeeded(s: State, a: nat, done: string, b: nat, expiresAt: int)
    requires Guarded(s) && !Overdue(s) && a in s.requests && s.requests[a].phase.Executing?
    requires b !in s.requests && expiresAt >= s.now
    ensures var r := s.requests[a];
            var steps := Repeated(a, done, b, r.key, r.hash, expiresAt);
            var end := Run(s, steps);
            && Timely(s, steps) && end.Some?
            && a in end.value.requests && Unexpired(end.value, a)
            && end.value.requests[a] == r.(phase := Answered(Rejected), outcome := Some(Refused(Some(done))))
            && TookEffect(end.value, b, r.key, expiresAt) && Unexpired(end.value, b)
  {
    hide Run, Next, Write, Guarded, Overdue, Timely;
    var r := s.requests[a];
    assert Holds(s, a) && r.reservation.value >= s.now by { FlightHolds(s, a); }
    RefusalLeavesNoRecord(s, a, done);
    var refused := [Return(a, Refused(Some(done)))] + [Settle(a)];
    var s1 := Run(s, refused).value;
    WriteTakesEffect(s1, b, r.key, r.hash, expiresAt);
    RunConcat(s, refused, Write(b, r.key, r.hash, expiresAt));
    RepeatedStandsStill(a, done, b, r.key, r.hash, expiresAt);
    StandstillIsTimely(s, Repeated(a, done, b, r.key, r.hash, expiresAt));
  }

  lemma RepeatedStandsStill(a: nat, done: string, b: nat, key: Key, hash: string, expiresAt: int)
    ensures var steps := Repeated(a, done, b, key, hash, expiresAt);
      forall i | 0 <= i < |steps| :: !steps[i].Tick? && (steps[i].Reserve? ==> steps[i].expiresAt == expiresAt)
  {
  }

  /** Settling in time is needed: from every guarded state in which a handler runs, if the clock passes
      its expiry first, a schedule exists that ends with two unexpired effects for one key. */
  lemma TimelinessIsNeeded(s: State, a: nat, b: nat, c: nat, delay: nat)
    requires Guarded(s) && !Overdue(s) && a in s.requests && s.requests[a].phase.Executing?
    requires b !in s.requests && c !in s.requests && b != c
    requires s.requests[a].reservation.Some? && s.now + delay > s.requests[a].reservation.value
    ensures var r := s.requests[a];
            var end := Run(s, Overrun(a, b, c, r.key, r.hash, delay, s.now + delay + 60));
            && end.Some?
            && TookEffect(end.value, b, r.key, end.value.now + 60)
            && TookEffect(end.value, c, r.key, end.value.now + 60)
  {
    hide Run, Next, Write, Guarded, Overdue;
    var r, x := s.requests[a], s.now + delay + 60;
    assert Holds(s, a) by { FlightHolds(s, a); }
    var s1 := s.(now := s.now + delay);
    assert Run(s, [Tick(delay)]) == Some(s1) by { RunOne(s, Tick(delay)); TickNext(s, delay); }
    var s2 := Written(s1, b, r.key, r.hash, x);
    WriteTakesEffect(s1, b, r.key, r.hash, x);
    LateSettleClosesAnother(s2, a);
    var late := [Return(a, Success("", true))] + [Settle(a)];
    var s3 := Run(s2, late).value;
    WriteTakesEffect(s3, c, r.key, r.hash, x);
    RunFour(s, [Tick(delay)], Write(b, r.key, r.hash, x), late, Write(c, r.key, r.hash, x), s1, s2, s3);
  }

  lemma FlightHolds(s: State, id: nat)
    requires Guarded(s) && !Overdue(s) && id in s.requests && Active(s.requests[id])
    ensures Holds(s, id) && s.requests[id].reservation.value >= s.now
  {
  }

  lemma TickNext(s: State, delay: nat)
    ensures Next(s, Tick(delay)) == Some(s.(now := s.now + delay))
  {
  }
}
