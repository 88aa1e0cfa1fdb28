/** What one call of the gateway does, by status, count, owner and clock. */
module ApprovalRules {
  import opened Approvals
  import opened Risk
  import opened Wrappers

  /** Nothing but the row of uid differs. */
  predicate OnlyRow(s: State, t: State, uid: Uid) {
    && t.registry == s.registry && t.rows.Keys == s.rows.Keys + {uid}
    && forall u :: u in s.rows && u != uid ==> t.rows[u] == s.rows[u]
  }

  /** The row is open or failed, is the caller's or nobody's, and is not past its deadline; a deadline of 0 is none. */
  predicate MayDecide(row: Row, user: Option<int>, now: real) {
    && (row.requestedBy.Some? ==> user == row.requestedBy)
    && row.status in {Pending, Confirming, Failed}
    && (row.expiresAt.Some? && row.expiresAt.value != 0.0 ==> now <= row.expiresAt.value)
  }

  /** Why a decision is refused: the first of these that applies. */
  lemma RefusalsInOrder(s: State, uid: Uid, input: Input)
    requires input.op.Approve? || input.op.Reject?
    requires input.op.uid == uid
    ensures var user, now, v := input.op.user, input.now, Apply(s, input).1;
      && (v == Refused(NotFound) <==> uid !in s.rows)
      && (uid in s.rows ==>
            var row := s.rows[uid];
            var foreign := row.requestedBy != None && user != row.requestedBy;
            var late := row.expiresAt.Some? && row.expiresAt.value != 0.0 && row.expiresAt.value < now;
            && (v == Refused(Foreign) <==> foreign)
            && (v == Refused(AlreadyApproved) <==> !foreign && (row.status == Executed || row.status == Approved))
            && (v == Refused(AlreadyRejected) <==> !foreign && row.status == Rejected)
            && (v == Refused(TimedOut) <==>
                  !foreign && (row.status == Expired || (row.status in {Pending, Confirming, Failed} && late)))
            && (v.Done? <==> MayDecide(row, user, now)))
  {
    hide ExecuteRow;
  }

  /** A refused decision changes nothing, but that a row found past due is expired. */
  lemma RefusalsWriteNothing(s: State, uid: Uid, input: Input)
    requires (input.op.Approve? || input.op.Reject?) && input.op.uid == uid && Apply(s, input).1.Refused?
    ensures var t := Apply(s, input).0;
      t == if uid in s.rows && Apply(s, input).1.reason == TimedOut
           then s.(rows := s.rows[uid := s.rows[uid].(status := Expired)]) else s
  {
    hide ApproveRow;
    if uid in s.rows {
      assert s.rows == s.rows[uid := s.rows[uid]];
    }
  }

  /** An accepted rejection closes the row and does nothing else but log it. */
  lemma RejectionRejects(s: State, uid: Uid, user: Option<int>, now: real)
    requires Apply(s, Input(now, Reject(uid, user))).1.Done?
    ensures uid in s.rows
    ensures Apply(s, Input(now, Reject(uid, user))).0
      == State(s.rows[uid := s.rows[uid].(status := Rejected)], s.events + [ApprovalRejected(uid)], s.runs, s.registry)
  {
  }

  /** An accepted approval is counted. If it is not the last one needed, it only says so; if it is, the executor is
      called once, and the row says whether it succeeded, with an event if it did. */
  lemma ApprovalCounts(s: State, uid: Uid, user: Option<int>, succeeds: bool, now: real)
    requires Apply(s, Input(now, Approve(uid, user, succeeds))).1.Done?
    ensures uid in s.rows
    ensures var row, t := s.rows[uid], Apply(s, Input(now, Approve(uid, user, succeeds))).0;
      var n := row.count + 1;
      && OnlyRow(s, t, uid) && uid in t.rows
      && (row.required > n && row.required != 0 ==>
            && t.rows[uid] == row.(count := n, status := Confirming)
            && t.events == s.events + [ApprovalStep(uid, n, row.required)] && t.runs == s.runs)
      && (1 <= row.required <= n ==>
            var outcome := if row.actionType !in s.registry then NoExecutor else if succeeds then Returned else Raised;
            && t.rows[uid] == row.(count := n, status := if outcome == Returned then Executed else Failed)
            && t.events == (if outcome == Returned then s.events + [ActionExecuted(uid)] else s.events)
            && t.runs == s.runs + [Run(uid, outcome)])
  {
  }

  /** The policy: two approvals within two hours, or one within a day. */
  predicate IsRedKey(key: string) {
    key in RED_ACTIONS || (HasRedHint(key) && key !in GREEN_ACTIONS && key !in YELLOW_ACTIONS)
  }

  /** A new request waits for its approvals, if its type is not listed as green. */
  lemma RequestWaits(s: State, uid: Uid, a: string, owner: Option<int>, succeeds: bool, now: real)
    requires uid !in s.rows && Key(a) !in GREEN_ACTIONS
    ensures var t := Apply(s, Input(now, Request(uid, a, owner, succeeds))).0;
      && OnlyRow(s, t, uid) && uid in t.rows
      && t.runs == s.runs && t.events == s.events + [ApprovalRequested(uid)]
      && t.rows[uid].status == Pending && t.rows[uid].count == 0
      && t.rows[uid].actionType == a && t.rows[uid].requestedBy == owner
      && (IsRedKey(Key(a)) ==> t.rows[uid].required == 2 && t.rows[uid].expiresAt == Some(now + 7200.0))
      && (!IsRedKey(Key(a)) ==> t.rows[uid].required == 1 && t.rows[uid].expiresAt == Some(now + 86400.0))
  {
    hide Key, HasRedHint;
    TablesAreDisjoint(Key(a));
  }

  /** One that is listed as green runs at once. */
  lemma GreenRunsAtOnce(s: State, uid: Uid, a: string, owner: Option<int>, succeeds: bool, now: real)
    requires uid !in s.rows && Key(a) in GREEN_ACTIONS
    ensures var t := Apply(s, Input(now, Request(uid, a, owner, succeeds))).0;
      && OnlyRow(s, t, uid) && uid in t.rows
      && t.runs == s.runs + [Run(uid, if a !in s.registry then NoExecutor else if succeeds then Returned else Raised)]
      && t.events == (if a in s.registry && succeeds then s.events + [ActionExecuted(uid)] else s.events)
      && t.rows[uid].status == (if a in s.registry && succeeds then Executed else Failed)
      && t.rows[uid].count == 0 && t.rows[uid].required == 1
      && t.rows[uid].actionType == a && t.rows[uid].requestedBy == owner
      && t.rows[uid].expiresAt == Some(now + 900.0)
  {
    hide Key, HasRedHint;
  }

  lemma TakenUid(s: State, uid: Uid, a: string, owner: Option<int>, succeeds: bool, now: real)
    requires uid in s.rows
    ensures Apply(s, Input(now, Request(uid, a, owner, succeeds))) == (s, Refused(UidTaken))
  {
  }

  /** A sweep expires the open rows past their deadline, however many, and nothing else. */
  lemma SweepExpires(s: State, now: real)
    ensures var t := Apply(s, Input(now, Sweep)).0;
      && t.runs == s.runs && t.events == s.events && t.registry == s.registry && t.rows.Keys == s.rows.Keys
      && forall u :: u in s.rows ==>
           t.rows[u] == if s.rows[u].status in {Pending, Confirming}
                           && s.rows[u].expiresAt.Some? && s.rows[u].expiresAt.value < now
                        then s.rows[u].(status := Expired) else s.rows[u]
  {
  }
}
