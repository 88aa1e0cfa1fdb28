/** The approval gateway, with each decision taken as one step. */
module Approvals {
  import opened Wrappers
  import opened Risk

  type Uid = string

  datatype Status = Pending | Confirming | Approved | Rejected | Expired | Executed | Failed

  /** A row of pending_actions; the text and bookkeeping columns are left out. */
  datatype Row = Row(actionType: string, risk: Risk, status: Status, requestedBy: Option<int>,
                     required: int, count: int, expiresAt: Option<real>)

  datatype Event = ApprovalRequested(uid: Uid) | ApprovalStep(uid: Uid, step: int, of: int)
                 | ApprovalRejected(uid: Uid) | ActionExecuted(uid: Uid)

  datatype Outcome = NoExecutor | Raised | Returned

  /** One call of `run_executor`. */
  datatype Run = Run(uid: Uid, outcome: Outcome)

  datatype State = State(rows: map<Uid, Row>, events: seq<Event>, runs: seq<Run>, registry: set<string>)

  datatype Reason = UidTaken | NotFound | Foreign | AlreadyApproved | AlreadyRejected | TimedOut

  datatype Verdict = Done(status: Status) | Refused(reason: Reason) | Swept(count: nat) | Registered

  /** user is the row id of the caller, if there is one; succeeds says what the executor will do if it is run. */
  datatype Op = Register(actionType: string)
              | Request(uid: Uid, actionType: string, requestedBy: Option<int>, succeeds: bool)
              | Approve(uid: Uid, user: Option<int>, succeeds: bool)
              | Reject(uid: Uid, user: Option<int>)
              | Sweep

  datatype Input = Input(now: real, op: Op)

  // ----- the source's rules, on values -----

  /** `create_pending_action`. */
  function NewRow(actionType: string, risk: Risk, status: Status, requestedBy: Option<int>, required: int,
                  ttl: real, now: real): Row
  {
    Row(actionType, risk, status, requestedBy, if required < 1 then 1 else required, 0,
        if ttl != 0.0 then Some(now + ttl) else None)
  }

  /** The lazy check: an `expires_at` of 0 counts as none. */
  predicate PastDue(row: Row, now: real) {
    row.expiresAt.Some? && row.expiresAt.value != 0.0 && row.expiresAt.value < now
  }

  /** What the sweep selects. */
  predicate IsStale(row: Row, now: real) {
    row.status in {Pending, Confirming} && row.expiresAt.Some? && row.expiresAt.value < now
  }

  /** `_load_open`: why a decision is refused. */
  function Objection(row: Row, user: Option<int>, now: real): Option<Reason> {
    if row.requestedBy.Some? && user != row.requestedBy then Some(Foreign)
    else if row.status in {Executed, Approved} then Some(AlreadyApproved)
    else if row.status == Rejected then Some(AlreadyRejected)
    else if row.status == Expired || PastDue(row, now) then Some(TimedOut)
    else None
  }

  /** The row after a refusal: the lazy check writes `expired`. */
  function AfterRefusal(row: Row, user: Option<int>, now: real): Row {
    if Objection(row, user, now) == Some(TimedOut) then row.(status := Expired) else row
  }

  function OutcomeOf(registry: set<string>, actionType: string, succeeds: bool): Outcome {
    if actionType !in registry then NoExecutor else if succeeds then Returned else Raised
  }

  /** `_execute` on an approved row. */
  function ExecuteRow(s: State, uid: Uid, succeeds: bool): State
    requires uid in s.rows
  {
    var outcome := OutcomeOf(s.registry, s.rows[uid].actionType, succeeds);
    s.(rows := s.rows[uid := s.rows[uid].(status := if outcome.Returned? then Executed else Failed)],
       runs := s.runs + [Run(uid, outcome)],
       events := if outcome.Returned? then s.events + [ActionExecuted(uid)] else s.events)
  }

  /** `int(action["approvals_required"] or 1)`. */
  function Required(row: Row): int {
    if row.required == 0 then 1 else row.required
  }

  function ApproveRow(s: State, uid: Uid, succeeds: bool): State
    requires uid in s.rows
  {
    var row := s.rows[uid];
    var count := row.count + 1;
    if count < Required(row) then
      s.(rows := s.rows[uid := row.(count := count, status := Confirming)],
         events := s.events + [ApprovalStep(uid, count, Required(row))])
    else
      ExecuteRow(s.(rows := s.rows[uid := row.(count := count, status := Approved)]), uid, succeeds)
  }

  function RequestRow(s: State, uid: Uid, actionType: string, requestedBy: Option<int>, succeeds: bool, now: real)
    : State
    requires uid !in s.rows
  {
    var level := Classify(actionType);
    if IsAuto(level) then
      var row := NewRow(actionType, level, Approved, requestedBy, 1, TtlFor(level), now);
      ExecuteRow(s.(rows := s.rows[uid := row]), uid, succeeds)
    else
      var row := NewRow(actionType, level, Pending, requestedBy, ApprovalsRequired(level), TtlFor(level), now);
      s.(rows := s.rows[uid := row], events := s.events + [ApprovalRequested(uid)])
  }

  function Stale(rows: map<Uid, Row>, now: real): set<Uid> {
    set u | u in rows && IsStale(rows[u], now)
  }

  function SweepRows(rows: map<Uid, Row>, now: real): map<Uid, Row> {
    map u | u in rows :: if IsStale(rows[u], now) then rows[u].(status := Expired) else rows[u]
  }

  function Apply(s: State, input: Input): (State, Verdict) {
    match input.op
    case Register(a) => (s.(registry := s.registry + {a}), Registered)
    case Request(uid, a, owner, succeeds) =>
      if uid in s.rows then (s, Refused(UidTaken)) else
      var t := RequestRow(s, uid, a, owner, succeeds, input.now);
      (t, Done(t.rows[uid].status))
    case Approve(uid, user, succeeds) =>
      if uid !in s.rows then (s, Refused(NotFound)) else
      var objection := Objection(s.rows[uid], user, input.now);
      if objection.Some? then
        (s.(rows := s.rows[uid := AfterRefusal(s.rows[uid], user, input.now)]), Refused(objection.value))
      else
        var t := ApproveRow(s, uid, succeeds);
        (t, Done(t.rows[uid].status))
    case Reject(uid, user) =>
      if uid !in s.rows then (s, Refused(NotFound)) else
      var objection := Objection(s.rows[uid], user, input.now);
      if objection.Some? then
        (s.(rows := s.rows[uid := AfterRefusal(s.rows[uid], user, input.now)]), Refused(objection.value))
      else
        (s.(rows := s.rows[uid := s.rows[uid].(status := Rejected)], events := s.events + [ApprovalRejected(uid)]),
         Done(Rejected))
    case Sweep => (s.(rows := SweepRows(s.rows, input.now)), Swept(|Stale(s.rows, input.now)|))
  }

  const EMPTY := State(map[], [], [], {})

  // ----- the source's form: an object that every call updates -----

  class Gateway {
    var rows: map<Uid, Row>
    var events: seq<Event>
    var runs: seq<Run>
    var registry: set<string>

    function View(): State
      reads this
    {
      State(rows, events, runs, registry)
    }

    constructor ()
      ensures View() == EMPTY
    {
      rows, events, runs, registry := map[], [], [], {};
    }

    method RegisterExecutor(actionType: string)
      modifies this
      ensures View() == Apply(old(View()), Input(0.0, Register(actionType))).0
    {
      registry := registry + {actionType};
    }

    /** `update_pending_action`, for the columns the gateway writes. */
    method Update(uid: Uid, status: Status, count: int)
      requires uid in rows
      modifies this`rows
      ensures rows == old(rows)[uid := old(rows[uid]).(status := status, count := count)]
    {
      rows := rows[uid := rows[uid].(status := status, count := count)];
    }

    method RequestAction(uid: Uid, actionType: string, requestedBy: Option<int>, succeeds: bool, now: real)
      returns (verdict: Verdict)
      modifies this
      ensures (View(), verdict) == Apply(old(View()), Input(now, Request(uid, actionType, requestedBy, succeeds)))
    {
      if uid in rows {
        return Refused(UidTaken);
      }
      var level := Classify(actionType);
      var ttl := TtlFor(level);
      if IsAuto(level) {
        rows := rows[uid := NewRow(actionType, level, Approved, requestedBy, 1, ttl, now)];
        Execute(uid, succeeds);
        return Done(rows[uid].status);
      }
      rows := rows[uid := NewRow(actionType, level, Pending, requestedBy, ApprovalsRequired(level), ttl, now)];
      events := events + [ApprovalRequested(uid)];
      verdict := Done(Pending);
    }

    method Execute(uid: Uid, succeeds: bool)
      requires uid in rows
      modifies this
      ensures View() == ExecuteRow(old(View()), uid, succeeds)
    {
      var row := rows[uid];
      runs := runs + [Run(uid, OutcomeOf(registry, row.actionType, succeeds))];
      if row.actionType !in registry {
        Update(uid, Failed, row.count);
        return;
      }
      if !succeeds {
        Update(uid, Failed, row.count);
        return;
      }
      Update(uid, Executed, row.count);
      events := events + [ActionExecuted(uid)];
    }

    method LoadOpen(uid: Uid, user: Option<int>, now: real) returns (r: Result<Row, Reason>)
      modifies this`rows
      ensures uid !in old(rows) ==> r == Failure(NotFound) && rows == old(rows)
      ensures uid in old(rows) ==>
                && rows == old(rows)[uid := AfterRefusal(old(rows[uid]), user, now)]
                && r == match Objection(old(rows[uid]), user, now)
                        case Some(reason) => Failure(reason)
                        case None => Success(old(rows[uid]))
    {
      if uid !in rows {
        return Failure(NotFound);
      }
      var row := rows[uid];
      assert rows == rows[uid := row];
      if row.requestedBy.Some? && user != row.requestedBy {
        return Failure(Foreign);
      }
      if row.status in {Executed, Approved} {
        return Failure(AlreadyApproved);
      }
      if row.status == Rejected {
        return Failure(AlreadyRejected);
      }
      if row.status == Expired {
        assert row == row.(status := Expired);
        return Failure(TimedOut);
      }
      if PastDue(row, now) {
        Update(uid, Expired, row.count);
        return Failure(TimedOut);
      }
      r := Success(row);
    }

    method ApproveAction(uid: Uid, user: Option<int>, succeeds: bool, now: real) returns (verdict: Verdict)
      modifies this
      ensures (View(), verdict) == Apply(old(View()), Input(now, Approve(uid, user, succeeds)))
    {
      var row := LoadOpen(uid, user, now);
      if row.Failure? {
        return Refused(row.error);
      }
      assert rows == old(rows);
      var count := row.value.count + 1;
      var required := Required(row.value);
      if count < required {
        Update(uid, Confirming, count);
        events := events + [ApprovalStep(uid, count, required)];
        return Done(Confirming);
      }
      Update(uid, Approved, count);
      Execute(uid, succeeds);
      verdict := Done(rows[uid].status);
    }

    method RejectAction(uid: Uid, user: Option<int>, now: real) returns (verdict: Verdict)
      modifies this
      ensures (View(), verdict) == Apply(old(View()), Input(now, Reject(uid, user)))
    {
      var row := LoadOpen(uid, user, now);
      if row.Failure? {
        return Refused(row.error);
      }
      assert rows == old(rows);
      Update(uid, Rejected, row.value.count);
      events := events + [ApprovalRejected(uid)];
      verdict := Done(Rejected);
    }

    /** `expire_stale_actions`: select, then update row by row. */
    method ExpireStale(now: real) returns (count: nat)
      modifies this`rows
      ensures (View(), Swept(count)) == Apply(old(View()), Input(now, Sweep))
    {
      var stale := Stale(rows, now);
      count := |stale|;
      var todo := stale;
      while todo != {}
        invariant todo <= stale && rows.Keys == old(rows.Keys)
        invariant forall u :: u in rows ==>
                    rows[u] == if u in stale && u !in todo then old(rows[u]).(status := Expired) else old(rows[u])
        decreases todo
      {
        var u :| u in todo;
        Update(u, Expired, rows[u].count);
        todo := todo - {u};
      }
      assert rows == SweepRows(old(rows), now);
    }
  }
}
