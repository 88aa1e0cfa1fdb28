/** What the gateway keeps over every run of atomic decisions. */
module ApprovalTheorems {
  import opened Wrappers
  import opened Risk
  import opened Approvals

  // ----- counting in the logs -----

  function Attempts(runs: seq<Run>, uid: Uid): nat {
    if runs == [] then 0
    else Attempts(runs[..|runs| - 1], uid) + (if runs[|runs| - 1].uid == uid then 1 else 0)
  }

  function Successes(runs: seq<Run>, uid: Uid): nat {
    if runs == [] then 0
    else Successes(runs[..|runs| - 1], uid) + (if runs[|runs| - 1] == Run(uid, Returned) then 1 else 0)
  }

  function ExecutedEvents(events: seq<Event>, uid: Uid): nat {
    if events == [] then 0
    else ExecutedEvents(events[..|events| - 1], uid) + (if events[|events| - 1] == ActionExecuted(uid) then 1 else 0)
  }

  lemma OneMoreRun(runs: seq<Run>, r: Run, uid: Uid)
    ensures Attempts(runs + [r], uid) == Attempts(runs, uid) + (if r.uid == uid then 1 else 0)
    ensures Successes(runs + [r], uid) == Successes(runs, uid) + (if r == Run(uid, Returned) then 1 else 0)
  {
    assert (runs + [r])[..|runs|] == runs;
  }

  lemma OneMoreEvent(events: seq<Event>, e: Event, uid: Uid)
    ensures ExecutedEvents(events + [e], uid)
      == ExecutedEvents(events, uid) + (if e == ActionExecuted(uid) then 1 else 0)
  {
    assert (events + [e])[..|events|] == events;
  }

  // ----- the invariant -----

  function Max(a: int, b: int): int {
    if a < b then b else a
  }

  /** How often the executor of a row has been called, by its counts alone. */
  function ExpectedAttempts(row: Row): int {
    if row.risk.Green? then 1 + row.count else Max(0, row.count - row.required + 1)
  }

  predicate RowInv(row: Row, attempts: nat, successes: nat, executedEvents: nat) {
    && row.count >= 0
    && row.required == (if row.risk.Red? then 2 else 1)
    && row.status != Approved
    && attempts == ExpectedAttempts(row)
    && successes == executedEvents == (if row.status == Executed then 1 else 0)
    && (row.status == Pending ==> row.count == 0 && !row.risk.Green?)
    && (row.status == Confirming ==> 0 < row.count < row.required)
    && (row.status in {Executed, Failed} ==> attempts >= 1)
  }

  predicate UidInv(s: State, uid: Uid) {
    var a, k, e := Attempts(s.runs, uid), Successes(s.runs, uid), ExecutedEvents(s.events, uid);
    if uid in s.rows then RowInv(s.rows[uid], a, k, e) else a == k == e == 0
  }

  ghost predicate Inv(s: State) {
    forall uid :: UidInv(s, uid)
  }

  /** Events other than `action_executed` do not count. */
  lemma QuietEvent(events: seq<Event>, e: Event)
    requires !e.ActionExecuted?
    ensures forall u :: ExecutedEvents(events + [e], u) == ExecutedEvents(events, u)
  {
    forall u ensures ExecutedEvents(events + [e], u) == ExecutedEvents(events, u) {
      OneMoreEvent(events, e, u);
    }
  }

  /** Executing a row adds one run, and a success exactly when the row ends as executed. */
  lemma ExecuteCounts(s: State, uid: Uid, succeeds: bool)
    requires uid in s.rows
    ensures var t := ExecuteRow(s, uid, succeeds);
      && t.rows.Keys == s.rows.Keys
      && t.rows[uid].status in {Executed, Failed} && t.rows[uid] == s.rows[uid].(status := t.rows[uid].status)
      && (forall u :: u in s.rows && u != uid ==> t.rows[u] == s.rows[u])
      && (forall u :: Attempts(t.runs, u) == Attempts(s.runs, u) + (if u == uid then 1 else 0))
      && (forall u :: Successes(t.runs, u) == Successes(s.runs, u)
                      + (if u == uid && t.rows[uid].status == Executed then 1 else 0))
      && (forall u :: ExecutedEvents(t.events, u) == ExecutedEvents(s.events, u)
                      + (if u == uid && t.rows[uid].status == Executed then 1 else 0))
  {
    var outcome := OutcomeOf(s.registry, s.rows[uid].actionType, succeeds);
    forall u
      ensures Attempts(s.runs + [Run(uid, outcome)], u) == Attempts(s.runs, u) + (if u == uid then 1 else 0)
      ensures Successes(s.runs + [Run(uid, outcome)], u)
        == Successes(s.runs, u) + (if u == uid && outcome.Returned? then 1 else 0)
      ensures ExecutedEvents(s.events + [ActionExecuted(uid)], u)
        == ExecutedEvents(s.events, u) + (if u == uid then 1 else 0)
    {
      OneMoreRun(s.runs, Run(uid, outcome), u);
      OneMoreEvent(s.events, ActionExecuted(uid), u);
    }
  }

  lemma RequestKeepsInv(s: State, uid: Uid, actionType: string, owner: Option<int>, succeeds: bool, now: real)
    requires Inv(s) && uid !in s.rows
    ensures Inv(RequestRow(s, uid, actionType, owner, succeeds, now))
  {
    hide Classify, Attempts, Successes, ExecutedEvents, ExecuteRow;
    var t := RequestRow(s, uid, actionType, owner, succeeds, now);
    var level := Classify(actionType);
    assert UidInv(s, uid);
    if IsAuto(level) {
      var row := NewRow(actionType, level, Approved, owner, 1, TtlFor(level), now);
      ExecuteCounts(s.(rows := s.rows[uid := row]), uid, succeeds);
    } else {
      QuietEvent(s.events, ApprovalRequested(uid));
    }
    forall u ensures UidInv(t, u) {
      assert UidInv(s, u);
    }
  }

  lemma ApproveKeepsInv(s: State, uid: Uid, user: Option<int>, succeeds: bool, now: real)
    requires Inv(s) && uid in s.rows && Objection(s.rows[uid], user, now).None?
    ensures Inv(ApproveRow(s, uid, succeeds))
  {
    hide Attempts, Successes, ExecutedEvents, ExecuteRow;
    var t := ApproveRow(s, uid, succeeds);
    var row := s.rows[uid];
    assert UidInv(s, uid);
    if row.count + 1 < Required(row) {
      QuietEvent(s.events, ApprovalStep(uid, row.count + 1, Required(row)));
    } else {
      ExecuteCounts(s.(rows := s.rows[uid := row.(count := row.count + 1, status := Approved)]), uid, succeeds);
    }
    forall u ensures UidInv(t, u) {
      assert UidInv(s, u);
    }
  }

  /** Writing `rejected` or `expired` over an open row keeps the counts. */
  lemma CloseKeepsInv(s: State, t: State)
    requires Inv(s) && t.rows.Keys == s.rows.Keys && t.runs == s.runs
    requires forall u :: ExecutedEvents(t.events, u) == ExecutedEvents(s.events, u)
    requires forall u :: u in s.rows ==>
               t.rows[u] == s.rows[u]
               || (s.rows[u].status != Executed
                   && (t.rows[u] == s.rows[u].(status := Rejected) || t.rows[u] == s.rows[u].(status := Expired)))
    ensures Inv(t)
  {
    hide Attempts, Successes, ExecutedEvents;
    forall u ensures UidInv(t, u) {
      assert UidInv(s, u);
    }
  }

  /** Every call keeps the invariant. */
  lemma ApplyKeepsInv(s: State, input: Input)
    requires Inv(s)
    ensures Inv(Apply(s, input).0)
  {
    hide Attempts, Successes, ExecutedEvents, ApproveRow, RequestRow, PastDue;
    var t := Apply(s, input).0;
    match input.op
    case Register(_) =>
      CloseKeepsInv(s, t);
    case Request(uid, a, owner, succeeds) =>
      if uid !in s.rows {
        RequestKeepsInv(s, uid, a, owner, succeeds, input.now);
      }
    case Approve(uid, user, succeeds) =>
      if uid in s.rows {
        if Objection(s.rows[uid], user, input.now).None? {
          ApproveKeepsInv(s, uid, user, succeeds, input.now);
        } else {
          CloseKeepsInv(s, t);
        }
      }
    case Reject(uid, user) =>
      if uid in s.rows {
        QuietEvent(s.events, ApprovalRejected(uid));
        CloseKeepsInv(s, t);
      }
    case Sweep =>
      CloseKeepsInv(s, t);
  }

  // ----- runs -----

  /** The state and the verdicts after a run of calls. */
  function Play(s: State, inputs: seq<Input>): (State, seq<Verdict>)
    decreases |inputs|
  {
    if inputs == [] then (s, []) else
    var (t, v) := Apply(s, inputs[0]);
    var (u, vs) := Play(t, inputs[1..]);
    (u, [v] + vs)
  }

  lemma {:induction false} PlayKeepsInv(s: State, inputs: seq<Input>)
    requires Inv(s)
    ensures Inv(Play(s, inputs).0)
    decreases |inputs|
  {
    if inputs != [] {
      ApplyKeepsInv(s, inputs[0]);
      PlayKeepsInv(Apply(s, inputs[0]).0, inputs[1..]);
    }
  }

  lemma EmptyInv()
    ensures Inv(EMPTY)
  {
  }

  /** In every reachable state the executor calls of an action follow from its counts. */
  lemma AttemptsFollowFromCounts(inputs: seq<Input>, uid: Uid)
    requires uid in Play(EMPTY, inputs).0.rows
    ensures var s := Play(EMPTY, inputs).0;
      var row := s.rows[uid];
      && Attempts(s.runs, uid) == (if row.risk.Green? then 1 + row.count else Max(0, row.count - row.required + 1))
      && (!row.risk.Green? ==> row.required == ApprovalsRequired(row.risk))
      && (row.status == Confirming ==> 0 < row.count < row.required)
  {
    EmptyInv();
    PlayKeepsInv(EMPTY, inputs);
    assert UidInv(Play(EMPTY, inputs).0, uid);
  }

  /** Over a whole run an executor succeeds at most once, exactly for the executed rows, each with one event. */
  lemma SucceedsAtMostOnce(inputs: seq<Input>, uid: Uid)
    ensures var s := Play(EMPTY, inputs).0;
      && Successes(s.runs, uid) == ExecutedEvents(s.events, uid)
      && Successes(s.runs, uid) == (if uid in s.rows && s.rows[uid].status == Executed then 1 else 0)
  {
    EmptyInv();
    PlayKeepsInv(EMPTY, inputs);
    assert UidInv(Play(EMPTY, inputs).0, uid);
  }

  // ----- closed rows -----

  predicate IsClosed(row: Row) {
    row.status in {Executed, Rejected, Expired}
  }

  lemma OpenRunIsFailed(s: State, uid: Uid)
    requires Inv(s) && uid in s.rows && Attempts(s.runs, uid) > 0
    ensures IsClosed(s.rows[uid]) || s.rows[uid].status == Failed
  {
    assert UidInv(s, uid);
  }

  /** One call leaves a closed row alone and does not run its executor; only a failed row is reopened after a run. */
  lemma ClosedStaysClosed(s: State, input: Input, uid: Uid)
    requires Inv(s) && uid in s.rows
    ensures var t := Apply(s, input).0;
      && uid in t.rows
      && (IsClosed(s.rows[uid]) ==> t.rows[uid] == s.rows[uid] && Attempts(t.runs, uid) == Attempts(s.runs, uid))
      && (Attempts(s.runs, uid) > 0 && t.rows[uid] != s.rows[uid] ==> s.rows[uid].status == Failed)
  {
    hide Classify, Attempts, Successes, ExecutedEvents, ExecuteRow, PastDue, ExpectedAttempts;
    if Attempts(s.runs, uid) > 0 {
      OpenRunIsFailed(s, uid);
    }
    match input.op
    case Request(v, a, owner, succeeds) =>
      if v !in s.rows && IsAuto(Classify(a)) {
        var row := NewRow(a, Classify(a), Approved, owner, 1, TtlFor(Classify(a)), input.now);
        ExecuteCounts(s.(rows := s.rows[v := row]), v, succeeds);
      }
    case Approve(v, user, succeeds) =>
      if v in s.rows && Objection(s.rows[v], user, input.now).None? {
        var row := s.rows[v];
        if row.count + 1 >= Required(row) {
          ExecuteCounts(s.(rows := s.rows[v := row.(count := row.count + 1, status := Approved)]), v, succeeds);
        }
      }
    case _ =>
  }

  lemma {:induction false} ClosedForever(s: State, inputs: seq<Input>, uid: Uid)
    requires Inv(s) && uid in s.rows && IsClosed(s.rows[uid])
    ensures var t := Play(s, inputs).0;
      uid in t.rows && t.rows[uid] == s.rows[uid] && Attempts(t.runs, uid) == Attempts(s.runs, uid)
    decreases |inputs|
  {
    if inputs != [] {
      ClosedStaysClosed(s, inputs[0], uid);
      ApplyKeepsInv(s, inputs[0]);
      ClosedForever(Apply(s, inputs[0]).0, inputs[1..], uid);
    }
  }

  // ----- approvals -----

  /** The approvals of an action that were accepted, each by a separate call. */
  function Accepted(s: State, inputs: seq<Input>, uid: Uid): nat
    decreases |inputs|
  {
    if inputs == [] then 0 else
    var (t, v) := Apply(s, inputs[0]);
    (if inputs[0].op.Approve? && inputs[0].op.uid == uid && v.Done? then 1 else 0) + Accepted(t, inputs[1..], uid)
  }

  function CountOf(s: State, uid: Uid): int {
    if uid in s.rows then s.rows[uid].count else 0
  }

  lemma {:induction false} CountIsAccepted(s: State, inputs: seq<Input>, uid: Uid)
    ensures CountOf(Play(s, inputs).0, uid) == CountOf(s, uid) + Accepted(s, inputs, uid)
    decreases |inputs|
  {
    if inputs != [] {
      hide Classify, PastDue;
      CountIsAccepted(Apply(s, inputs[0]).0, inputs[1..], uid);
    }
  }

  /** The executor of a yellow or red action is never called before 1 or 2 accepted approvals. */
  lemma EnoughApprovalsFirst(inputs: seq<Input>, uid: Uid)
    requires uid in Play(EMPTY, inputs).0.rows && !Play(EMPTY, inputs).0.rows[uid].risk.Green?
    ensures var s := Play(EMPTY, inputs).0;
      Attempts(s.runs, uid) > 0 ==> Accepted(EMPTY, inputs, uid) >= ApprovalsRequired(s.rows[uid].risk)
  {
    AttemptsFollowFromCounts(inputs, uid);
    CountIsAccepted(EMPTY, inputs, uid);
  }

  // ----- requests and deadlines -----

  lemma {:induction false} PlayOneMore(s: State, inputs: seq<Input>, input: Input)
    ensures Play(s, inputs + [input]).0 == Apply(Play(s, inputs).0, input).0
    decreases |inputs|
  {
    hide Apply;
    if inputs == [] {
      assert [] + [input] == [input] && [input][1..] == [];
    } else {
      assert (inputs + [input])[1..] == inputs[1..] + [input];
      PlayOneMore(Apply(s, inputs[0]).0, inputs[1..], input);
    }
  }

  /** The call that inserted the row: it fixed the type, the owner, the level and the deadline for good. */
  predicate IsRequestOf(input: Input, uid: Uid, row: Row) {
    && input.op.Request? && input.op.uid == uid
    && row.actionType == input.op.actionType && row.requestedBy == input.op.requestedBy
    && row.risk == Classify(row.actionType) && row.expiresAt == Some(input.now + TtlFor(row.risk))
  }

  predicate SameRequest(x: Row, y: Row) {
    x.actionType == y.actionType && x.requestedBy == y.requestedBy && x.risk == y.risk && x.expiresAt == y.expiresAt
  }

  lemma RequestIsFixed(s: State, input: Input, uid: Uid)
    requires uid in Apply(s, input).0.rows
    ensures var row := Apply(s, input).0.rows[uid];
      if uid in s.rows then SameRequest(s.rows[uid], row) else IsRequestOf(input, uid, row)
  {
    hide Classify, PastDue;
  }

  /** Every row of a run was inserted by a request of the run. */
  lemma {:induction false} RowWasRequested(inputs: seq<Input>, uid: Uid) returns (i: nat)
    requires uid in Play(EMPTY, inputs).0.rows
    ensures i < |inputs| && IsRequestOf(inputs[i], uid, Play(EMPTY, inputs).0.rows[uid])
    decreases |inputs|
  {
    hide Apply, IsRequestOf;
    var n := |inputs| - 1;
    var before := inputs[..n];
    assert inputs == before + [inputs[n]];
    PlayOneMore(EMPTY, before, inputs[n]);
    RequestIsFixed(Play(EMPTY, before).0, inputs[n], uid);
    i := n;
    if uid in Play(EMPTY, before).0.rows {
      i := RowWasRequested(before, uid);
      StillTheRequest(inputs[i], uid, Play(EMPTY, before).0.rows[uid], Play(EMPTY, inputs).0.rows[uid]);
    }
  }

  lemma StillTheRequest(input: Input, uid: Uid, x: Row, y: Row)
    requires IsRequestOf(input, uid, x) && SameRequest(x, y)
    ensures IsRequestOf(input, uid, y)
  {
  }

  /** In any run, the executor of an action type that the policy does not list as green is never called before an
      accepted approval, and never before two if the type is listed as red, or is not listed and has a red hint in its
      name. */
  lemma UnlistedNeedsApproval(inputs: seq<Input>, uid: Uid)
    requires uid in Play(EMPTY, inputs).0.rows
    ensures var s := Play(EMPTY, inputs).0;
      var key := Key(s.rows[uid].actionType);
      Attempts(s.runs, uid) > 0 ==>
        && (key !in GREEN_ACTIONS ==> Accepted(EMPTY, inputs, uid) >= 1)
        && (key in RED_ACTIONS || (HasRedHint(key) && key !in GREEN_ACTIONS && key !in YELLOW_ACTIONS) ==>
              Accepted(EMPTY, inputs, uid) >= 2)
  {
    hide Play, Attempts, Accepted, Classify, Key, HasRedHint;
    var i := RowWasRequested(inputs, uid);
    var row := Play(EMPTY, inputs).0.rows[uid];
    LevelsOfPolicy(row.actionType);
    if !row.risk.Green? {
      EnoughApprovalsFirst(inputs, uid);
    }
  }

  /** In any run a decision is accepted only from the owner its request named, on an open or failed row, and no later
      than the time to live of its level after that request (where that deadline is not exactly 0). */
  lemma AcceptedInTime(inputs: seq<Input>, input: Input, uid: Uid) returns (i: nat)
    requires (input.op.Approve? || input.op.Reject?) && input.op.uid == uid
    requires Apply(Play(EMPTY, inputs).0, input).1.Done?
    ensures uid in Play(EMPTY, inputs).0.rows && Play(EMPTY, inputs).0.rows[uid].status in {Pending, Confirming, Failed}
    ensures i < |inputs| && inputs[i].op.Request? && inputs[i].op.uid == uid
    ensures inputs[i].op.requestedBy.Some? ==> input.op.user == inputs[i].op.requestedBy
    ensures var deadline := inputs[i].now + TtlFor(Classify(inputs[i].op.actionType));
      deadline != 0.0 ==> input.now <= deadline
  {
    EmptyInv();
    PlayKeepsInv(EMPTY, inputs);
    var s := Play(EMPTY, inputs).0;
    assert UidInv(s, uid);
    hide Classify, Play;
    i := RowWasRequested(inputs, uid);
  }
}
