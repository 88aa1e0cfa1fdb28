/** The expiry sweep cannot be seen by decisions. */
module ApprovalSweeps {
  import opened Wrappers
  import opened Risk
  import opened Approvals
  import opened ApprovalTheorems

  function WithoutSweeps(inputs: seq<Input>): seq<Input> {
    if inputs == [] then []
    else (if inputs[0].op.Sweep? then [] else [inputs[0]]) + WithoutSweeps(inputs[1..])
  }

  /** The verdicts of a run, those of the sweeps left out. */
  function Decisions(s: State, inputs: seq<Input>): seq<Verdict>
    decreases |inputs|
  {
    if inputs == [] then [] else
    var (t, v) := Apply(s, inputs[0]);
    (if inputs[0].op.Sweep? then [] else [v]) + Decisions(t, inputs[1..])
  }

  /** The clock never goes back and starts at or after the epoch. */
  predicate Monotone(now: real, inputs: seq<Input>)
    decreases |inputs|
  {
    now >= 0.0 && (inputs != [] ==> now <= inputs[0].now && Monotone(inputs[0].now, inputs[1..]))
  }

  ghost predicate PositiveDeadlines(s: State) {
    forall u :: u in s.rows ==> s.rows[u].expiresAt.Some? ==> s.rows[u].expiresAt.value > 0.0
  }

  /** x is the row of the run with sweeps, y of the one without: the sweep may have been first to expire it. */
  predicate SameRow(x: Row, y: Row, now: real) {
    x == y || (x == y.(status := Expired) && y.status in {Pending, Confirming} && PastDue(y, now))
  }

  ghost predicate Alike(a: State, b: State, now: real) {
    && a.events == b.events && a.runs == b.runs && a.registry == b.registry
    && a.rows.Keys == b.rows.Keys
    && forall u :: u in a.rows ==> SameRow(a.rows[u], b.rows[u], now)
  }

  lemma LaterIsAlike(a: State, b: State, t: real, now: real)
    requires Alike(a, b, t) && t <= now
    ensures Alike(a, b, now)
  {
  }

  lemma SweepIsAlike(a: State, b: State, now: real)
    requires Alike(a, b, now) && PositiveDeadlines(a)
    ensures Alike(Apply(a, Input(now, Sweep)).0, b, now) && PositiveDeadlines(Apply(a, Input(now, Sweep)).0)
  {
  }

  /** The lazy check and the sweep refuse the same decisions, for the same reason. */
  lemma SameObjection(x: Row, y: Row, user: Option<int>, now: real)
    requires SameRow(x, y, now)
    ensures Objection(x, user, now) == Objection(y, user, now)
    ensures Objection(x, user, now).None? ==> x == y
    ensures SameRow(AfterRefusal(x, user, now), AfterRefusal(y, user, now), now)
  {
  }

  lemma DecisionIsAlike(a: State, b: State, input: Input)
    requires Alike(a, b, input.now) && PositiveDeadlines(a) && input.now >= 0.0 && !input.op.Sweep?
    ensures Apply(a, input).1 == Apply(b, input).1
    ensures Alike(Apply(a, input).0, Apply(b, input).0, input.now)
    ensures PositiveDeadlines(Apply(a, input).0)
  {
    hide Classify, PastDue, Objection, AfterRefusal, ApproveRow, RequestRow;
    match input.op
    case Register(_) =>
    case Request(uid, actionType, owner, succeeds) =>
      if uid !in a.rows {
        RequestIsAlike(a, b, input, uid, actionType, owner, succeeds);
      }
    case Approve(uid, user, succeeds) =>
      if uid in a.rows {
        SameObjection(a.rows[uid], b.rows[uid], user, input.now);
        RefusalKeepsDeadline(a.rows[uid], user, input.now);
        if Objection(a.rows[uid], user, input.now).None? {
          ApproveIsAlike(a, b, uid, succeeds, input.now);
        }
      }
    case Reject(uid, user) =>
      if uid in a.rows {
        SameObjection(a.rows[uid], b.rows[uid], user, input.now);
        RefusalKeepsDeadline(a.rows[uid], user, input.now);
      }
  }

  lemma RequestIsAlike(a: State, b: State, input: Input, uid: Uid, actionType: string, owner: Option<int>,
                       succeeds: bool)
    requires Alike(a, b, input.now) && PositiveDeadlines(a) && input.now >= 0.0 && uid !in a.rows
    ensures var a', b' := RequestRow(a, uid, actionType, owner, succeeds, input.now),
                          RequestRow(b, uid, actionType, owner, succeeds, input.now);
      Alike(a', b', input.now) && PositiveDeadlines(a') && a'.rows[uid] == b'.rows[uid]
  {
    hide Classify, PastDue;
  }

  lemma ApproveIsAlike(a: State, b: State, uid: Uid, succeeds: bool, now: real)
    requires Alike(a, b, now) && PositiveDeadlines(a) && uid in a.rows && a.rows[uid] == b.rows[uid]
    ensures var a', b' := ApproveRow(a, uid, succeeds), ApproveRow(b, uid, succeeds);
      Alike(a', b', now) && PositiveDeadlines(a') && a'.rows[uid] == b'.rows[uid]
  {
    hide PastDue;
  }

  lemma RefusalKeepsDeadline(row: Row, user: Option<int>, now: real)
    ensures AfterRefusal(row, user, now).expiresAt == row.expiresAt
  {
  }

  lemma {:induction false} RunsAreAlike(a: State, b: State, t: real, inputs: seq<Input>)
    requires Alike(a, b, t) && PositiveDeadlines(a) && Monotone(t, inputs)
    ensures Decisions(a, inputs) == Play(b, WithoutSweeps(inputs)).1
    ensures Play(a, inputs).0.runs == Play(b, WithoutSweeps(inputs)).0.runs
    ensures Play(a, inputs).0.events == Play(b, WithoutSweeps(inputs)).0.events
    decreases |inputs|
  {
    if inputs != [] {
      hide Apply, Alike, PositiveDeadlines;
      var input, rest := inputs[0], inputs[1..];
      var a' := Apply(a, input).0;
      LaterIsAlike(a, b, t, input.now);
      if input.op.Sweep? {
        SweepIsAlike(a, b, input.now);
        RunsAreAlike(a', b, input.now, rest);
        assert WithoutSweeps(inputs) == WithoutSweeps(rest) && Decisions(a, inputs) == Decisions(a', rest);
      } else {
        DecisionIsAlike(a, b, input);
        RunsAreAlike(a', Apply(b, input).0, input.now, rest);
        assert WithoutSweeps(inputs) == [input] + WithoutSweeps(rest);
        assert WithoutSweeps(inputs)[1..] == WithoutSweeps(rest);
      }
    } else {
      SameLogs(a, b, t);
    }
  }

  lemma SameLogs(a: State, b: State, t: real)
    requires Alike(a, b, t)
    ensures a.runs == b.runs && a.events == b.events
  {
  }

  /** Leaving out every sweep changes no verdict, no executor run and no event. */
  lemma SweepsAreInvisible(inputs: seq<Input>)
    requires Monotone(0.0, inputs)
    ensures Decisions(EMPTY, inputs) == Play(EMPTY, WithoutSweeps(inputs)).1
    ensures Play(EMPTY, inputs).0.runs == Play(EMPTY, WithoutSweeps(inputs)).0.runs
    ensures Play(EMPTY, inputs).0.events == Play(EMPTY, WithoutSweeps(inputs)).0.events
  {
    RunsAreAlike(EMPTY, EMPTY, 0.0, inputs);
  }

  /** For an open row and a caller who may decide it, the sweep expires exactly the rows that the lazy check refuses as
      late, except that it expires a row with a deadline of exactly 0, which the lazy check takes for none. */
  lemma ZeroDeadlineIsSeen(row: Row, user: Option<int>, now: real)
    requires row.status in {Pending, Confirming} && (row.requestedBy.Some? ==> user == row.requestedBy)
    ensures (IsStale(row, now) <==> Objection(row, user, now) == Some(TimedOut))
      <==> !(row.expiresAt == Some(0.0) && now > 0.0)
  {
  }
}
