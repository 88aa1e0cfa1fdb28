/** When a closed row stays closed, whatever the threads do. */
module ApprovalClosed {
  import opened Risk
  import opened Approvals
  import opened ApprovalOverlap
  import opened ApprovalTheorems
  import opened ApprovalThreads

  /** The call has read uid as open and may still write it. */
  predicate Engaged(call: Call, uid: Uid) {
    match call
    case Expiring(u) => u == uid
    case Approving(u, _) => u == uid
    case Rejecting(u) => u == uid
    case Running(u) => u == uid
    case Finishing(u, _) => u == uid
    case Sweeping(todo) => uid in todo
    case _ => false
  }

  /** No two calls are engaged with this row. */
  predicate NoOverlap(w: World, uid: Uid) {
    forall t, u :: t in w.calls && u in w.calls && Engaged(w.calls[t], uid) && Engaged(w.calls[u], uid) ==> t == u
  }

  predicate NeverOverlaps(w: World, labels: seq<Label>, uid: Uid)
    decreases |labels|
  {
    NoOverlap(w, uid) && (labels != [] ==> NeverOverlaps(Step(w, labels[0]), labels[1..], uid))
  }

  /** What an engaged call knows of its row; k is how often the executor has succeeded. */
  predicate Agrees(call: Call, row: Row, k: nat) {
    match call
    case Approving(_, r) => r == row && IsOpen(row) && k == 0
    case Running(_) => row.status == Approved && k == 0
    case Finishing(_, outcome) => row.status == Approved && k == (if outcome.Returned? then 1 else 0)
    case Sweeping(_) => row.status in {Pending, Confirming} && k == 0
    case _ => IsOpen(row) && k == 0
  }

  predicate AtRest(row: Row, k: nat) {
    row.status != Approved && k == (if row.status == Executed then 1 else 0)
  }

  ghost predicate UidSafe(w: World, uid: Uid) {
    var k := Successes(w.runs, uid);
    && (uid !in w.rows ==> k == 0)
    && (forall t :: t in w.calls && Engaged(w.calls[t], uid) ==> uid in w.rows && Agrees(w.calls[t], w.rows[uid], k))
    && (uid in w.rows ==> AtRest(w.rows[uid], k) || exists t :: t in w.calls && Engaged(w.calls[t], uid))
  }

  /** A step of tid that leaves uid, its runs and its engagement alone. */
  lemma OtherUidSafe(w: World, w': World, tid: Tid, uid: Uid)
    requires UidSafe(w, uid) && tid in w.calls && tid in w'.calls && w'.calls == w.calls[tid := w'.calls[tid]]
    requires (uid in w.rows <==> uid in w'.rows) && (uid in w.rows ==> w.rows[uid] == w'.rows[uid])
    requires Successes(w'.runs, uid) == Successes(w.runs, uid)
    requires Engaged(w'.calls[tid], uid) == Engaged(w.calls[tid], uid)
    requires Engaged(w.calls[tid], uid) ==> w.calls[tid].Sweeping? && w'.calls[tid].Sweeping?
    ensures UidSafe(w', uid)
  {
    hide Successes;
    if uid in w.rows && !AtRest(w.rows[uid], Successes(w.runs, uid)) {
      var t :| t in w.calls && Engaged(w.calls[t], uid);
      assert t in w'.calls && Engaged(w'.calls[t], uid);
    }
  }

  /** A step of tid, the only call engaged with uid before or after, that ends engaged and in agreement. */
  lemma EngagedUidSafe(w: World, w': World, tid: Tid, uid: Uid)
    requires NoOverlap(w', uid) && tid in w'.calls && Engaged(w'.calls[tid], uid) && uid in w'.rows
    requires Agrees(w'.calls[tid], w'.rows[uid], Successes(w'.runs, uid))
    ensures UidSafe(w', uid)
  {
    hide Successes;
  }

  /** A step of tid, the only call engaged with uid, that ends at rest. */
  lemma RestingUidSafe(w: World, w': World, tid: Tid, uid: Uid)
    requires NoOverlap(w, uid) && tid in w.calls && Engaged(w.calls[tid], uid) && uid in w'.rows
    requires tid in w'.calls && w'.calls == w.calls[tid := w'.calls[tid]] && !Engaged(w'.calls[tid], uid)
    requires AtRest(w'.rows[uid], Successes(w'.runs, uid))
    ensures UidSafe(w', uid)
  {
    hide Successes;
  }

  lemma UidStepIsSafe(w: World, w': World, tid: Tid, now: real, succeeds: bool, pick: Uid, uid: Uid)
    requires UidSafe(w, uid) && NoOverlap(w, uid) && NoOverlap(w', uid) && tid in w.calls
    requires w' == StepCall(w, tid, now, succeeds, pick)
    ensures UidSafe(w', uid)
  {
    hide Successes, Classify, PastDue, NoOverlap, UidSafe;
    RunsCounted(w, w', tid, now, succeeds, pick, uid);
    var before, after := Engaged(w.calls[tid], uid), Engaged(w'.calls[tid], uid);
    if before {
      EngagedAgrees(w, tid, uid);
    }
    if after && (!before || !w.calls[tid].Sweeping?) {
      if !before {
        NobodyElse(w, w', tid, uid);
      }
      EngagedUidSafe(w, w', tid, uid);
    } else if before && !after {
      RestingUidSafe(w, w', tid, uid);
    } else if uid in w'.rows && uid !in w.rows {
      FreshUidSafe(w, w', tid, uid);
    } else {
      OtherUidSafe(w, w', tid, uid);
    }
  }

  lemma EngagedAgrees(w: World, tid: Tid, uid: Uid)
    requires UidSafe(w, uid) && tid in w.calls && Engaged(w.calls[tid], uid)
    ensures uid in w.rows && Agrees(w.calls[tid], w.rows[uid], Successes(w.runs, uid))
  {
  }

  /** When a call becomes engaged without overlap, the row was at rest. */
  lemma NobodyElse(w: World, w': World, tid: Tid, uid: Uid)
    requires UidSafe(w, uid) && NoOverlap(w', uid) && tid in w.calls && tid in w'.calls
    requires w'.calls == w.calls[tid := w'.calls[tid]] && Engaged(w'.calls[tid], uid) && !Engaged(w.calls[tid], uid)
    ensures uid in w.rows ==> AtRest(w.rows[uid], Successes(w.runs, uid))
    ensures uid !in w.rows ==> Successes(w.runs, uid) == 0
  {
    hide Successes;
    forall t | t in w.calls ensures !Engaged(w.calls[t], uid) {
      assert t in w'.calls && (t == tid || w'.calls[t] == w.calls[t]);
    }
  }

  lemma FreshUidSafe(w: World, w': World, tid: Tid, uid: Uid)
    requires UidSafe(w, uid) && uid !in w.rows && uid in w'.rows && tid in w.calls && tid in w'.calls
    requires w'.calls == w.calls[tid := w'.calls[tid]] && !Engaged(w'.calls[tid], uid)
    requires Successes(w'.runs, uid) == Successes(w.runs, uid) && w'.rows[uid].status == Pending
    ensures UidSafe(w', uid)
  {
    hide Successes;
  }

  lemma StartKeepsSafe(w: World, tid: Tid, call: Call, uid: Uid)
    requires UidSafe(w, uid) && tid !in w.calls && IsFirst(call)
    ensures UidSafe(Goto(w, tid, call), uid)
  {
    hide Successes;
    var w' := Goto(w, tid, call);
    if uid in w.rows && !AtRest(w.rows[uid], Successes(w.runs, uid)) {
      var t :| t in w.calls && Engaged(w.calls[t], uid);
      assert t in w'.calls && Engaged(w'.calls[t], uid);
    }
  }

  lemma {:induction false} WalkKeepsSafe(w: World, labels: seq<Label>, uid: Uid)
    requires UidSafe(w, uid) && NeverOverlaps(w, labels, uid)
    ensures UidSafe(Walk(w, labels), uid)
    decreases |labels|
  {
    hide UidSafe, NoOverlap, StepCall;
    if labels != [] {
      var w' := Step(w, labels[0]);
      assert NeverOverlaps(w', labels[1..], uid);
      if w' != w {
        match labels[0] {
          case Start(tid, call) => StartKeepsSafe(w, tid, call, uid);
          case Move(tid, now, succeeds, pick) => UidStepIsSafe(w, w', tid, now, succeeds, pick, uid);
        }
      }
      WalkKeepsSafe(w', labels[1..], uid);
    }
  }

  lemma BeginIsSafe(registry: set<string>, uid: Uid)
    ensures UidSafe(Begin(registry), uid)
  {
  }

  /** The call's next step changes the status of a row that is closed. */
  predicate Overwrites(call: Call, uid: Uid, row: Row) {
    match call
    case Expiring(u) => u == uid && row.status != Expired
    case Approving(u, _) => u == uid
    case Rejecting(u) => u == uid && row.status != Rejected
    case Finishing(u, outcome) => u == uid && row.status != (if outcome.Returned? then Executed else Failed)
    case Sweeping(todo) => uid in todo && row.status != Expired
    case _ => false
  }

  /** The call can still change a closed row: by its next step, or by writing what its executor returns. */
  predicate Threatens(call: Call, uid: Uid, row: Row) {
    Overwrites(call, uid, row) || call == Running(uid)
  }

  predicate NoThreat(w: World, uid: Uid) {
    uid in w.rows && forall t :: t in w.calls ==> !Threatens(w.calls[t], uid, w.rows[uid])
  }

  /** The row is as it was, and its executor has not been called again. */
  predicate IsUntouched(w: World, v: World, uid: Uid) {
    uid in w.rows && uid in v.rows && v.rows[uid] == w.rows[uid] && Attempts(v.runs, uid) == Attempts(w.runs, uid)
  }

  lemma HarmlessStep(w: World, tick: Label, uid: Uid)
    requires NoThreat(w, uid) && IsClosed(w.rows[uid])
    ensures NoThreat(Step(w, tick), uid) && IsUntouched(w, Step(w, tick), uid)
  {
    hide Attempts, Classify, PastDue;
    var v := Step(w, tick);
    if tick.Move? && tick.tid in w.calls {
      MovedCallIsHarmless(w, tick, uid);
      hide StepCall, Threatens;
      forall t | t in v.calls ensures !Threatens(v.calls[t], uid, v.rows[uid]) {
        assert t == tick.tid || v.calls[t] == w.calls[t];
      }
    }
  }

  lemma MovedCallIsHarmless(w: World, tick: Label, uid: Uid)
    requires NoThreat(w, uid) && IsClosed(w.rows[uid]) && tick.Move? && tick.tid in w.calls
    ensures var v := Step(w, tick);
      && IsUntouched(w, v, uid) && tick.tid in v.calls && v.calls == w.calls[tick.tid := v.calls[tick.tid]]
      && !Threatens(v.calls[tick.tid], uid, v.rows[uid])
  {
    hide Attempts, StepCall, Threatens;
    CallDoesNotThreaten(w, tick.tid, uid);
    RowIsKept(w, tick, uid);
    NoNewAttempt(w, tick, uid);
    NextCallIsHarmless(w, tick, uid);
  }

  lemma CallDoesNotThreaten(w: World, t: Tid, uid: Uid)
    requires NoThreat(w, uid) && t in w.calls
    ensures !Threatens(w.calls[t], uid, w.rows[uid]) && w.calls[t] != Running(uid)
  {
  }

  lemma RowIsKept(w: World, tick: Label, uid: Uid)
    requires tick.Move? && tick.tid in w.calls && uid in w.rows && IsClosed(w.rows[uid])
    requires !Threatens(w.calls[tick.tid], uid, w.rows[uid])
    ensures uid in Step(w, tick).rows && Step(w, tick).rows[uid] == w.rows[uid]
  {
    hide Classify, Objection, Stale;
  }

  lemma NoNewAttempt(w: World, tick: Label, uid: Uid)
    requires tick.Move? && tick.tid in w.calls && w.calls[tick.tid] != Running(uid)
    ensures Attempts(Step(w, tick).runs, uid) == Attempts(w.runs, uid)
  {
    hide Attempts, Classify, Objection, Stale;
    var call := w.calls[tick.tid];
    if call.Running? && call.uid in w.rows {
      OneMoreRun(w.runs, Run(call.uid, OutcomeOf(w.registry, w.rows[call.uid].actionType, tick.succeeds)), uid);
    }
  }

  lemma NextCallIsHarmless(w: World, tick: Label, uid: Uid)
    requires tick.Move? && tick.tid in w.calls && uid in w.rows && IsClosed(w.rows[uid])
    requires !Threatens(w.calls[tick.tid], uid, w.rows[uid])
    ensures var v := Step(w, tick);
      && tick.tid in v.calls && v.calls == w.calls[tick.tid := v.calls[tick.tid]]
      && !Threatens(v.calls[tick.tid], uid, w.rows[uid])
  {
    hide Classify, Objection;
    var call := w.calls[tick.tid];
    if call.Deciding? && call.uid == uid {
      RefusedUnlessOpen(w.rows[uid], call.user, tick.now);
    }
  }

  lemma {:induction false} HarmlessWalk(w: World, more: seq<Label>, uid: Uid)
    requires NoThreat(w, uid) && IsClosed(w.rows[uid])
    ensures IsUntouched(w, Walk(w, more), uid)
    decreases |more|
  {
    hide Step, NoThreat, Attempts;
    ThreatIsOfARow(w, uid);
    if more != [] {
      HarmlessStep(w, more[0], uid);
      HarmlessWalk(Step(w, more[0]), more[1..], uid);
    }
  }

  lemma ThreatIsOfARow(w: World, uid: Uid)
    requires NoThreat(w, uid)
    ensures uid in w.rows
  {
  }

  /** A threat can be carried out by at most two steps of its call. */
  lemma ThreatStrikes(w: World, t: Tid, uid: Uid) returns (more: seq<Label>)
    requires uid in w.rows && IsClosed(w.rows[uid]) && t in w.calls && Threatens(w.calls[t], uid, w.rows[uid])
    ensures !IsUntouched(w, Walk(w, more), uid)
  {
    hide Walk, Attempts;
    var x := Move(t, 0.0, false, uid);
    WalkNothing(Step(w, x));
    WalkNothing(Step(Step(w, x), x));
    WalkCons(Step(w, x), x, []);
    if w.calls[t] == Running(uid) {
      WalkCons(w, x, [x] + []);
      more := [x] + ([x] + []);
    } else {
      WalkCons(w, x, []);
      more := [x] + [];
    }
  }

  /** In any world, a closed row stays as it is for ever, and its executor is not called again, whatever the threads
      do, if and only if no call is about to write another status to it or to run its executor. */
  lemma ClosedForeverExactlyWhen(w: World, uid: Uid)
    requires uid in w.rows && IsClosed(w.rows[uid])
    ensures (forall more :: IsUntouched(w, Walk(w, more), uid))
      <==> (forall t :: t in w.calls ==> !Overwrites(w.calls[t], uid, w.rows[uid]) && w.calls[t] != Running(uid))
  {
    hide Walk, IsUntouched, Overwrites;
    if NoThreat(w, uid) {
      forall more ensures IsUntouched(w, Walk(w, more), uid) {
        HarmlessWalk(w, more, uid);
      }
    } else {
      var t :| t in w.calls && Threatens(w.calls[t], uid, w.rows[uid]);
      var more := ThreatStrikes(w, t, uid);
    }
  }

  /** So rejected stays rejected, and closed stays closed, if no two calls have been engaged with the row together. */
  lemma ClosedStaysClosedWithoutOverlap(registry: set<string>, labels: seq<Label>, uid: Uid)
    requires NeverOverlaps(Begin(registry), labels, uid)
    requires var w := Walk(Begin(registry), labels); uid in w.rows && IsClosed(w.rows[uid])
    ensures var w := Walk(Begin(registry), labels); forall more :: IsUntouched(w, Walk(w, more), uid)
  {
    hide Walk, IsUntouched, Overwrites, UidSafe;
    BeginIsSafe(registry, uid);
    WalkKeepsSafe(Begin(registry), labels, uid);
    var w := Walk(Begin(registry), labels);
    forall t | t in w.calls ensures !Overwrites(w.calls[t], uid, w.rows[uid]) && w.calls[t] != Running(uid) {
      SafeCallIsHarmless(w, t, uid);
    }
    ClosedForeverExactlyWhen(w, uid);
  }

  lemma SafeCallIsHarmless(w: World, t: Tid, uid: Uid)
    requires UidSafe(w, uid) && uid in w.rows && IsClosed(w.rows[uid]) && t in w.calls
    ensures !Overwrites(w.calls[t], uid, w.rows[uid]) && w.calls[t] != Running(uid)
  {
    hide Successes;
    if Engaged(w.calls[t], uid) {
      EngagedAgrees(w, t, uid);
    }
  }
}
