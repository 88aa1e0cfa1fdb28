/** What approvals that overlap on a row can do, and when. */
module ApprovalOverlap {
  import opened Wrappers
  import opened Risk
  import opened Approvals
  import opened ApprovalTheorems
  import opened ApprovalThreads

  /** Only a running call adds to the successes, and only to its own. */
  lemma RunsCounted(w: World, w': World, tid: Tid, now: real, succeeds: bool, pick: Uid, uid: Uid)
    requires tid in w.calls && w' == StepCall(w, tid, now, succeeds, pick)
    ensures tid in w'.calls && w'.calls == w.calls[tid := w'.calls[tid]]
    ensures Successes(w'.runs, uid) == Successes(w.runs, uid)
      + (if w.calls[tid] == Running(uid) && w'.calls[tid] == Finishing(uid, Returned) then 1 else 0)
  {
    hide Successes, Classify, PastDue, Objection;
    if w.calls[tid].Running? && w.calls[tid].uid in w.rows {
      var v := w.calls[tid].uid;
      OneMoreRun(w.runs, Run(v, OutcomeOf(w.registry, w.rows[v].actionType, succeeds)), uid);
    }
  }

  predicate IsOpen(row: Row) {
    row.status in {Pending, Confirming, Failed}
  }

  /** The check refuses a row that is not open, and has nothing to write to it. */
  lemma RefusedUnlessOpen(row: Row, user: Option<int>, now: real)
    requires !IsOpen(row)
    ensures Objection(row, user, now).Some?
    ensures Objection(row, user, now) == Some(TimedOut) ==> row.status == Expired
  {
    hide PastDue;
  }

  // ----- at most once: only approvals matter -----

  /** The call is approving uid: its check has passed, or it is running the executor. */
  predicate Approves(call: Call, uid: Uid) {
    match call
    case Approving(u, _) => u == uid
    case Running(u) => u == uid
    case Finishing(u, _) => u == uid
    case _ => false
  }

  predicate OneApprover(w: World, uid: Uid) {
    forall t, u :: t in w.calls && u in w.calls && Approves(w.calls[t], uid) && Approves(w.calls[u], uid) ==> t == u
  }

  /** At no point are two calls approving uid together. */
  predicate NeverTwo(w: World, labels: seq<Label>, uid: Uid)
    decreases |labels|
  {
    OneApprover(w, uid) && (labels != [] ==> NeverTwo(Step(w, labels[0]), labels[1..], uid))
  }

  /** What an approving call knows of the successes so far. */
  predicate Knows(call: Call, k: nat) {
    match call
    case Approving(_, _) => k == 0
    case Running(_) => k == 0
    case Finishing(_, outcome) => k == (if outcome.Returned? then 1 else 0)
    case _ => true
  }

  predicate NoApprover(w: World, uid: Uid) {
    forall t :: t in w.calls ==> !Approves(w.calls[t], uid)
  }

  predicate OnceInv(w: World, uid: Uid) {
    var k := Successes(w.runs, uid);
    && k <= 1 && (uid !in w.rows ==> k == 0)
    && (forall t :: t in w.calls && Approves(w.calls[t], uid) ==> uid in w.rows && Knows(w.calls[t], k))
    && (k == 1 && NoApprover(w, uid) ==> uid in w.rows && IsClosed(w.rows[uid]))
  }

  /** What a step of the call that approves uid does to it. */
  lemma ApproverStep(w: World, w': World, tid: Tid, now: real, succeeds: bool, pick: Uid, uid: Uid)
    requires OnceInv(w, uid) && tid in w.calls && w' == StepCall(w, tid, now, succeeds, pick)
    requires Approves(w.calls[tid], uid)
    ensures uid in w'.rows && tid in w'.calls && w'.calls == w.calls[tid := w'.calls[tid]]
    ensures var k' := Successes(w'.runs, uid);
      k' <= 1 && if Approves(w'.calls[tid], uid) then Knows(w'.calls[tid], k') else k' == 1 ==> IsClosed(w'.rows[uid])
  {
    hide Successes, Classify, PastDue, Objection;
    RunsCounted(w, w', tid, now, succeeds, pick, uid);
  }

  /** What a step of another call does to uid: if its executor has succeeded, a closed row stays closed. */
  lemma OtherStep(w: World, w': World, tid: Tid, now: real, succeeds: bool, pick: Uid, uid: Uid)
    requires tid in w.calls && w' == StepCall(w, tid, now, succeeds, pick) && !Approves(w.calls[tid], uid)
    ensures tid in w'.calls && w'.calls == w.calls[tid := w'.calls[tid]] && (uid in w.rows ==> uid in w'.rows)
    ensures Successes(w'.runs, uid) == Successes(w.runs, uid)
    ensures Approves(w'.calls[tid], uid) ==> uid in w'.rows && (w'.calls[tid].Approving? || w'.calls[tid].Running?)
    ensures uid in w.rows && IsClosed(w.rows[uid]) ==> IsClosed(w'.rows[uid]) && !Approves(w'.calls[tid], uid)
  {
    hide Successes, Classify, PastDue;
    RunsCounted(w, w', tid, now, succeeds, pick, uid);
  }

  lemma OnceStep(w: World, tid: Tid, now: real, succeeds: bool, pick: Uid, uid: Uid)
    requires OnceInv(w, uid) && OneApprover(w, uid) && tid in w.calls
    requires OneApprover(StepCall(w, tid, now, succeeds, pick), uid)
    ensures OnceInv(StepCall(w, tid, now, succeeds, pick), uid)
  {
    hide Successes, Knows, StepCall, Approves, IsClosed;
    var w' := StepCall(w, tid, now, succeeds, pick);
    if Approves(w.calls[tid], uid) {
      ApproverStep(w, w', tid, now, succeeds, pick, uid);
    } else {
      OtherStep(w, w', tid, now, succeeds, pick, uid);
      FreshApproverKnows(w'.calls[tid], Successes(w'.runs, uid));
    }
    forall t | t in w'.calls && Approves(w'.calls[t], uid)
      ensures uid in w'.rows && Knows(w'.calls[t], Successes(w'.runs, uid))
    {
      if t == tid && !Approves(w.calls[tid], uid) {
        OnlyNewApprover(w, w', tid, uid);
      }
    }
    if NoApprover(w', uid) && !Approves(w.calls[tid], uid) {
      forall t | t in w.calls ensures !Approves(w.calls[t], uid) {
        assert t in w'.calls && (t == tid || w'.calls[t] == w.calls[t]);
      }
    }
  }

  lemma FreshApproverKnows(call: Call, k: nat)
    ensures k == 0 && (call.Approving? || call.Running?) ==> Knows(call, k)
  {
  }

  lemma OnlyNewApprover(w: World, w': World, tid: Tid, uid: Uid)
    requires tid in w.calls && tid in w'.calls && w'.calls == w.calls[tid := w'.calls[tid]]
    requires OneApprover(w', uid) && Approves(w'.calls[tid], uid) && !Approves(w.calls[tid], uid)
    ensures NoApprover(w, uid)
  {
    forall t | t in w.calls ensures !Approves(w.calls[t], uid) {
      assert t in w'.calls && (t == tid || w'.calls[t] == w.calls[t]);
    }
  }

  lemma {:induction false} WalkKeepsOnce(w: World, labels: seq<Label>, uid: Uid)
    requires OnceInv(w, uid) && NeverTwo(w, labels, uid)
    ensures OnceInv(Walk(w, labels), uid)
    decreases |labels|
  {
    hide OnceInv, OneApprover, StepCall;
    if labels != [] {
      var w' := Step(w, labels[0]);
      assert NeverTwo(w', labels[1..], uid) && OneApprover(w', uid);
      if w' != w {
        match labels[0] {
          case Start(tid, call) => StartKeepsOnce(w, tid, call, uid);
          case Move(tid, now, succeeds, pick) => OnceStep(w, tid, now, succeeds, pick, uid);
        }
      }
      WalkKeepsOnce(w', labels[1..], uid);
    }
  }

  lemma StartKeepsOnce(w: World, tid: Tid, call: Call, uid: Uid)
    requires OnceInv(w, uid) && tid !in w.calls && IsFirst(call)
    ensures OnceInv(Goto(w, tid, call), uid)
  {
    hide Successes;
    var w' := Goto(w, tid, call);
    if NoApprover(w', uid) {
      forall t | t in w.calls ensures !Approves(w.calls[t], uid) {
        assert t in w'.calls;
      }
    }
  }

  lemma BeginIsOnce(registry: set<string>, uid: Uid)
    ensures OnceInv(Begin(registry), uid)
  {
  }

  /** In any interleaving in which no two calls approve uid together, its executor succeeds at most once, whatever
      rejections, sweeps and calls on other rows overlap. */
  lemma AtMostOnceWithOneApprover(registry: set<string>, labels: seq<Label>, uid: Uid)
    requires NeverTwo(Begin(registry), labels, uid)
    ensures Successes(Walk(Begin(registry), labels).runs, uid) <= 1
  {
    BeginIsOnce(registry, uid);
    WalkKeepsOnce(Begin(registry), labels, uid);
  }

  // ----- the converse: two approving calls can make the executor succeed twice -----

  /** The calls that have run the executor of uid with success and not yet written so. */
  function ReturnedCalls(w: World, uid: Uid): set<Tid> {
    set t | t in w.calls && w.calls[t] == Finishing(uid, Returned)
  }

  lemma StepKeepsReturned(w: World, tick: Label, uid: Uid)
    requires |ReturnedCalls(w, uid)| <= Successes(w.runs, uid)
    ensures |ReturnedCalls(Step(w, tick), uid)| <= Successes(Step(w, tick).runs, uid)
  {
    hide Successes, StepCall;
    var w' := Step(w, tick);
    if tick.Move? && tick.tid in w.calls {
      RunsCounted(w, w', tick.tid, tick.now, tick.succeeds, tick.pick, uid);
      if w.calls[tick.tid] == Running(uid) && w'.calls[tick.tid] == Finishing(uid, Returned) {
        assert ReturnedCalls(w', uid) == ReturnedCalls(w, uid) + {tick.tid};
      } else {
        ReturnedOnlyByRunning(w, w', tick.tid, tick.now, tick.succeeds, tick.pick, uid);
        assert ReturnedCalls(w', uid) <= ReturnedCalls(w, uid);
        NotMore(ReturnedCalls(w', uid), ReturnedCalls(w, uid));
      }
    } else {
      assert ReturnedCalls(w', uid) == ReturnedCalls(w, uid);
    }
  }

  lemma ReturnedOnlyByRunning(w: World, w': World, tid: Tid, now: real, succeeds: bool, pick: Uid, uid: Uid)
    requires tid in w.calls && w' == StepCall(w, tid, now, succeeds, pick) && tid in w'.calls
    ensures w'.calls[tid] == Finishing(uid, Returned) ==> w.calls[tid] == Running(uid)
  {
    hide Classify, Objection;
  }

  lemma NotMore<T>(a: set<T>, b: set<T>)
    requires a <= b
    ensures |a| <= |b|
  {
    assert b == a + (b - a);
  }

  lemma {:induction false} ReturnedAreCounted(w: World, labels: seq<Label>, uid: Uid)
    requires |ReturnedCalls(w, uid)| <= Successes(w.runs, uid)
    ensures var v := Walk(w, labels); |ReturnedCalls(v, uid)| <= Successes(v.runs, uid)
    decreases |labels|
  {
    hide ReturnedCalls, Step, Successes;
    if labels != [] {
      StepKeepsReturned(w, labels[0], uid);
      ReturnedAreCounted(Step(w, labels[0]), labels[1..], uid);
    }
  }

  lemma {:induction false} Above(calls: set<Tid>) returns (m: Tid)
    ensures forall t :: t in calls ==> t < m
    decreases |calls|
  {
    m := 0;
    if calls != {} {
      var t :| t in calls;
      m := Above(calls - {t});
      assert forall u :: u in calls ==> u == t || u in calls - {t};
      m := if t < m then m else t + 1;
    }
  }

  /** The row is there, its executor is registered, and all calls but those given are where they were. */
  predicate Leaves(w: World, v: World, uid: Uid, moved: set<Tid>) {
    && uid in w.rows && uid in v.rows && v.rows[uid].actionType == w.rows[uid].actionType
    && w.rows[uid].actionType in w.registry && v.registry == w.registry
    && forall t :: t in w.calls && t !in moved ==> t in v.calls && v.calls[t] == w.calls[t]
  }

  lemma LeavesTwice(w: World, v: World, u: World, uid: Uid, a: set<Tid>, b: set<Tid>)
    requires Leaves(w, v, uid, a) && Leaves(v, u, uid, b)
    ensures Leaves(w, u, uid, a + b)
  {
  }

  /** A new call passes the check on an open row at its deadline and writes an approval. */
  lemma NewApproval(w: World, uid: Uid) returns (more: seq<Label>, t: Tid)
    requires uid in w.rows && IsOpen(w.rows[uid]) && w.rows[uid].actionType in w.registry
    ensures var row, v := w.rows[uid], Walk(w, more);
      && t !in w.calls && t in v.calls && v.runs == w.runs && Leaves(w, v, uid, {})
      && (if row.count + 1 >= Required(row) then v.calls[t] == Running(uid)
          else v.rows[uid] == row.(count := row.count + 1, status := Confirming))
  {
    hide Walk, Classify;
    t := Above(w.calls.Keys);
    var row := w.rows[uid];
    var now := if row.expiresAt.Some? then row.expiresAt.value else 0.0;
    var x, y := Start(t, Deciding(uid, row.requestedBy, true)), Move(t, now, true, "");
    WalkThree(w, x, y, y);
    var w1 := Step(w, x);
    var w2 := Step(w1, y);
    assert w2 == Goto(w1, t, Approving(uid, row));
    more := [x, y, y];
  }

  lemma Runs(w: World, uid: Uid, tid: Tid) returns (more: seq<Label>)
    requires tid in w.calls && w.calls[tid] == Running(uid) && uid in w.rows && w.rows[uid].actionType in w.registry
    ensures var v := Walk(w, more);
      Successes(v.runs, uid) == Successes(w.runs, uid) + 1 && Leaves(w, v, uid, {tid})
  {
    hide Successes;
    var x := Move(tid, 0.0, true, "");
    more := [x];
    assert [x][1..] == [];
    assert Walk(w, more) == Step(w, x);
    OneMoreRun(w.runs, Run(uid, Returned), uid);
  }

  /** From an open row, new calls can bring the executor to succeed once more. */
  lemma {:induction false} OpenRowSucceeds(w: World, uid: Uid) returns (more: seq<Label>)
    requires uid in w.rows && IsOpen(w.rows[uid]) && w.rows[uid].actionType in w.registry
    ensures var v := Walk(w, more);
      Successes(v.runs, uid) == Successes(w.runs, uid) + 1 && Leaves(w, v, uid, {})
    decreases Required(w.rows[uid]) - w.rows[uid].count
  {
    hide Walk, Successes, Leaves, Step;
    var first, t := NewApproval(w, uid);
    var v := Walk(w, first);
    LeavesIs(w, v, uid, {});
    var second;
    if w.rows[uid].count + 1 >= Required(w.rows[uid]) {
      second := Runs(v, uid, t);
      NewCallMoved(w, v, Walk(v, second), uid, t);
    } else {
      second := OpenRowSucceeds(v, uid);
      LeavesTwice(w, v, Walk(v, second), uid, {}, {});
      var none: set<Tid> := {};
      assert none + none == none;
    }
    WalkConcat(w, first, second);
    more := first + second;
  }

  lemma LeavesIs(w: World, v: World, uid: Uid, moved: set<Tid>)
    requires Leaves(w, v, uid, moved)
    ensures uid in v.rows && v.rows[uid].actionType in v.registry && v.registry == w.registry
    ensures forall t :: t in w.calls && t !in moved ==> t in v.calls && v.calls[t] == w.calls[t]
  {
  }

  lemma NewCallMoved(w: World, v: World, u: World, uid: Uid, t: Tid)
    requires t !in w.calls && Leaves(w, v, uid, {}) && Leaves(v, u, uid, {t})
    ensures Leaves(w, u, uid, {})
  {
  }

  /** A call that approves uid and has not succeeded yet can bring its executor to succeed once more: a last approval
      and a running call at once, a first approval and a failed run through the row they reopen. */
  lemma ApproverSucceeds(w: World, uid: Uid, tid: Tid) returns (more: seq<Label>)
    requires uid in w.rows && w.rows[uid].actionType in w.registry
    requires tid in w.calls && Approves(w.calls[tid], uid) && w.calls[tid] != Finishing(uid, Returned)
    ensures var v := Walk(w, more);
      Successes(v.runs, uid) == Successes(w.runs, uid) + 1 && Leaves(w, v, uid, {tid})
  {
    if w.calls[tid].Running? {
      more := Runs(w, uid, tid);
    } else {
      var v := WriteOrReopen(w, uid, tid);
      hide Walk, Successes, Leaves, Step;
      LeavesIs(w, v, uid, {tid});
      var x, rest := Move(tid, 0.0, true, ""), [];
      if v.calls[tid] == Running(uid) {
        rest := Runs(v, uid, tid);
        LeavesTwice(w, v, Walk(v, rest), uid, {tid}, {tid});
        assert {tid} + {tid} == {tid};
      } else {
        rest := OpenRowSucceeds(v, uid);
        LeavesTwice(w, v, Walk(v, rest), uid, {tid}, {});
        assert {tid} + {} == {tid};
      }
      WalkCons(w, x, rest);
      more := [x] + rest;
    }
  }

  lemma WalkCons(w: World, x: Label, rest: seq<Label>)
    ensures Walk(w, [x] + rest) == Walk(Step(w, x), rest)
  {
    hide Step;
    assert ([x] + rest)[1..] == rest;
  }

  /** The next write of such a call: approved and running next, or the row is open again. */
  lemma WriteOrReopen(w: World, uid: Uid, tid: Tid) returns (v: World)
    requires uid in w.rows && w.rows[uid].actionType in w.registry && tid in w.calls && Approves(w.calls[tid], uid)
    requires !w.calls[tid].Running? && w.calls[tid] != Finishing(uid, Returned)
    ensures v == Step(w, Move(tid, 0.0, true, "")) && v.runs == w.runs && Leaves(w, v, uid, {tid}) && tid in v.calls
    ensures v.calls[tid] == Running(uid) || IsOpen(v.rows[uid])
  {
    v := Step(w, Move(tid, 0.0, true, ""));
  }

  /** Whatever has happened before: from every reachable world with two calls approving one registered action, and
      whichever steps they are at, there is a way on after which its executor has succeeded twice. */
  lemma TwoApproversRunTwice(registry: set<string>, labels: seq<Label>, uid: Uid, t: Tid, u: Tid)
    returns (more: seq<Label>)
    requires var w := Walk(Begin(registry), labels);
      && uid in w.rows && w.rows[uid].actionType in registry && t != u && t in w.calls && u in w.calls
      && Approves(w.calls[t], uid) && Approves(w.calls[u], uid)
    ensures Successes(Walk(Begin(registry), labels + more).runs, uid) >= 2
  {
    hide Walk, Successes, Step, Leaves;
    var w := Walk(Begin(registry), labels);
    NoneReturned(registry, uid);
    ReturnedAreCounted(Begin(registry), labels, uid);
    WalkKeepsRegistry(Begin(registry), labels);
    TwoReturned(w, uid, t, u);
    var first, second := [], [];
    WalkNothing(w);
    LeavesItself(w, uid);
    if w.calls[t] != Finishing(uid, Returned) {
      first := ApproverSucceeds(w, uid, t);
    }
    var v := Walk(w, first);
    LeavesIs(w, v, uid, {t});
    WalkNothing(v);
    if v.calls[u] != Finishing(uid, Returned) {
      second := ApproverSucceeds(v, uid, u);
    }
    more := first + second;
    WalkConcat(w, first, second);
    WalkConcat(Begin(registry), labels, more);
  }

  lemma {:induction false} TypeStays(w: World, labels: seq<Label>, uid: Uid)
    requires uid in w.rows
    ensures var v := Walk(w, labels); uid in v.rows && v.rows[uid].actionType == w.rows[uid].actionType
    decreases |labels|
  {
    if labels != [] {
      hide Classify, Objection;
      TypeStays(Step(w, labels[0]), labels[1..], uid);
    }
  }

  /** The point of a run where two calls approve uid together. */
  lemma {:induction false} TwoTogether(w: World, labels: seq<Label>, uid: Uid) returns (more: seq<Label>)
    requires !NeverTwo(w, labels, uid)
    ensures !OneApprover(Walk(w, more), uid)
    decreases |labels|
  {
    hide OneApprover, Step;
    if !OneApprover(w, uid) {
      more := [];
      WalkNothing(w);
    } else {
      var rest := TwoTogether(Step(w, labels[0]), labels[1..], uid);
      more := [labels[0]] + rest;
      WalkCons(w, labels[0], rest);
    }
  }

  /** From any point of a run in which no two calls have approved uid together so far, its registered executor can
      come to succeed twice if and only if two calls can come to approve it together. */
  lemma TwiceExactlyWhenTwoApprovers(registry: set<string>, labels: seq<Label>, uid: Uid)
    requires NeverTwo(Begin(registry), labels, uid)
    requires var w := Walk(Begin(registry), labels); uid in w.rows && w.rows[uid].actionType in registry
    ensures var w := Walk(Begin(registry), labels);
      (exists more :: Successes(Walk(w, more).runs, uid) >= 2) <==> (exists more :: !OneApprover(Walk(w, more), uid))
  {
    hide Walk, Successes, Step, OnceInv;
    var w := Walk(Begin(registry), labels);
    BeginIsOnce(registry, uid);
    WalkKeepsOnce(Begin(registry), labels, uid);
    if more :| Successes(Walk(w, more).runs, uid) >= 2 {
      if NeverTwo(w, more, uid) {
        WalkKeepsOnce(w, more, uid);
        AtMostOne(Walk(w, more), uid);
      } else {
        var there := TwoTogether(w, more, uid);
        assert !OneApprover(Walk(w, there), uid);
      }
    }
    if more :| !OneApprover(Walk(w, more), uid) {
      WalkConcat(Begin(registry), labels, more);
      TypeStays(w, more, uid);
      var v := Walk(w, more);
      var t, u :| t in v.calls && u in v.calls && Approves(v.calls[t], uid) && Approves(v.calls[u], uid) && t != u;
      var rest := TwoApproversRunTwice(registry, labels + more, uid, t, u);
      WalkConcat(Begin(registry), labels + more, rest);
      WalkConcat(w, more, rest);
      assert Successes(Walk(w, more + rest).runs, uid) >= 2;
    }
  }

  lemma AtMostOne(w: World, uid: Uid)
    requires OnceInv(w, uid)
    ensures Successes(w.runs, uid) <= 1
  {
  }

  // ----- and the state says whether they can -----

  /** A call that is running the executor of uid, or has run it, has closed or approved its row. */
  predicate BusyInv(w: World, uid: Uid) {
    forall t :: t in w.calls && Approves(w.calls[t], uid) ==>
      uid in w.rows && (IsBusy(w.calls[t], uid) ==> !IsOpen(w.rows[uid]))
  }

  predicate IsBusy(call: Call, uid: Uid) {
    call == Running(uid) || (call.Finishing? && call.uid == uid)
  }

  lemma BusyStep(w: World, tick: Label, uid: Uid)
    requires BusyInv(w, uid) && OneApprover(w, uid)
    ensures BusyInv(Step(w, tick), uid)
  {
    hide Classify, Objection;
    var v := Step(w, tick);
    if tick.Move? && tick.tid in w.calls {
      MovedRow(w, tick, uid);
      MovedApprover(w, tick, uid);
      hide StepCall;
      forall t | t in v.calls && Approves(v.calls[t], uid)
        ensures uid in v.rows && (IsBusy(v.calls[t], uid) ==> !IsOpen(v.rows[uid]))
      {
        assert t == tick.tid || v.calls[t] == w.calls[t];
      }
    }
  }

  /** Only an approving call can open a row that is not open. */
  lemma MovedRow(w: World, tick: Label, uid: Uid)
    requires tick.Move? && tick.tid in w.calls
    ensures var v := Step(w, tick);
      && tick.tid in v.calls && v.calls == w.calls[tick.tid := v.calls[tick.tid]] && (uid in w.rows ==> uid in v.rows)
      && (uid in w.rows && !IsOpen(w.rows[uid]) && IsOpen(v.rows[uid]) ==> Approves(w.calls[tick.tid], uid))
  {
    hide StepCall, IsOpen, Approves;
    NotFirstAgain(w, tick);
    if uid in w.rows {
      OpenedRow(w, tick, uid);
    }
  }

  lemma OpenedRow(w: World, tick: Label, uid: Uid)
    requires tick.Move? && tick.tid in w.calls && uid in w.rows
    ensures var v := Step(w, tick);
      uid in v.rows && (!IsOpen(w.rows[uid]) && IsOpen(v.rows[uid]) ==> Approves(w.calls[tick.tid], uid))
  {
    hide Classify, Objection, Stale;
  }

  /** And it is not busy when it has opened it. */
  lemma MovedApprover(w: World, tick: Label, uid: Uid)
    requires tick.Move? && tick.tid in w.calls && BusyInv(w, uid)
    ensures var v := Step(w, tick);
      tick.tid in v.calls && (Approves(v.calls[tick.tid], uid) ==>
        uid in v.rows && (IsBusy(v.calls[tick.tid], uid) ==> !IsOpen(v.rows[uid])))
  {
    hide Classify, Objection, Stale;
    assert Approves(w.calls[tick.tid], uid) ==> uid in w.rows;
  }

  lemma {:induction false} WalkKeepsBusy(w: World, labels: seq<Label>, uid: Uid)
    requires BusyInv(w, uid) && NeverTwo(w, labels, uid)
    ensures BusyInv(Walk(w, labels), uid)
    decreases |labels|
  {
    hide BusyInv, OneApprover, Step;
    if labels != [] {
      BusyStep(w, labels[0], uid);
      WalkKeepsBusy(Step(w, labels[0]), labels[1..], uid);
    }
  }

  /** Nobody can approve the row any more: it is not open, and whoever approved it has only to write its success. */
  predicate IsSpent(w: World, uid: Uid) {
    && uid in w.rows && !IsOpen(w.rows[uid])
    && forall t :: t in w.calls && Approves(w.calls[t], uid) ==> w.calls[t] == Finishing(uid, Returned)
  }

  lemma SpentStep(w: World, tick: Label, uid: Uid)
    requires IsSpent(w, uid)
    ensures IsSpent(Step(w, tick), uid) && Successes(Step(w, tick).runs, uid) == Successes(w.runs, uid)
  {
    hide Successes, Classify, PastDue;
    var v := Step(w, tick);
    if tick.Move? && tick.tid in w.calls {
      RunsCounted(w, v, tick.tid, tick.now, tick.succeeds, tick.pick, uid);
      SpentCall(w, tick, uid);
      hide StepCall;
      forall t | t in v.calls && Approves(v.calls[t], uid) ensures v.calls[t] == Finishing(uid, Returned) {
        assert t == tick.tid || v.calls[t] == w.calls[t];
      }
    }
  }

  lemma SpentCall(w: World, tick: Label, uid: Uid)
    requires IsSpent(w, uid) && tick.Move? && tick.tid in w.calls
    ensures var v := Step(w, tick);
      && uid in v.rows && !IsOpen(v.rows[uid]) && tick.tid in v.calls && !Approves(v.calls[tick.tid], uid)
  {
    hide Classify, Objection, Stale;
    var call := w.calls[tick.tid];
    assert Approves(call, uid) ==> call == Finishing(uid, Returned);
    if call.Deciding? && call.uid == uid {
      RefusedUnlessOpen(w.rows[uid], call.user, tick.now);
    }
    SweptIsNotOpen(w, tick, uid);
  }

  /** Statuses other than an approval's are not open ones. */
  lemma SweptIsNotOpen(w: World, tick: Label, uid: Uid)
    requires uid in w.rows && !IsOpen(w.rows[uid])
    ensures !IsOpen(w.rows[uid].(status := Expired)) && !IsOpen(w.rows[uid].(status := Rejected))
    ensures !IsOpen(w.rows[uid].(status := Executed))
  {
  }

  lemma {:induction false} SpentForever(w: World, more: seq<Label>, uid: Uid)
    requires IsSpent(w, uid)
    ensures Successes(Walk(w, more).runs, uid) == Successes(w.runs, uid)
    decreases |more|
  {
    hide IsSpent, Step, Successes;
    if more != [] {
      SpentStep(w, more[0], uid);
      SpentForever(Step(w, more[0]), more[1..], uid);
    }
  }

  /** Two new calls pass the check on an open row. */
  lemma TwoCallsLoad(w: World, uid: Uid) returns (more: seq<Label>)
    requires uid in w.rows && IsOpen(w.rows[uid])
    ensures !OneApprover(Walk(w, more), uid)
  {
    hide Walk, Classify;
    var t := Above(w.calls.Keys);
    var u := t + 1;
    var row := w.rows[uid];
    var now := if row.expiresAt.Some? then row.expiresAt.value else 0.0;
    var first, second := Deciding(uid, row.requestedBy, true), Move(u, now, true, "");
    WalkThree(w, Start(t, first), Start(u, first), Move(t, now, true, ""));
    var v := Step(Step(Step(w, Start(t, first)), Start(u, first)), Move(t, now, true, ""));
    assert v == w.(calls := w.calls[t := Approving(uid, row)][u := first]);
    WalkCons(v, second, []);
    WalkNothing(Step(v, second));
    more := [Start(t, first), Start(u, first), Move(t, now, true, "")] + ([second] + []);
    WalkConcat(w, [Start(t, first), Start(u, first), Move(t, now, true, "")], [second] + []);
    assert Step(v, second).calls[t] == Approving(uid, row) == Step(v, second).calls[u];
  }

  /** A call that approves uid and has not succeeded can bring the row to be open, by a first approval or a failed
      run. */
  lemma ApproverOpens(w: World, uid: Uid, t: Tid) returns (more: seq<Label>)
    requires uid in w.rows && t in w.calls && Approves(w.calls[t], uid) && w.calls[t] != Finishing(uid, Returned)
    ensures var v := Walk(w, more); uid in v.rows && IsOpen(v.rows[uid])
  {
    hide Walk;
    var x := Move(t, 0.0, false, "");
    WalkThree(w, x, x, x);
    WalkCons(w, x, []);
    WalkNothing(Step(w, x));
    WalkCons(w, x, [x] + []);
    WalkCons(Step(w, x), x, []);
    WalkNothing(Step(Step(w, x), x));
    match w.calls[t]
    case Approving(_, row) => more := if row.count + 1 >= Required(row) then [x, x, x] else [x] + [];
    case Running(_) => more := [x] + ([x] + []);
    case Finishing(_, _) => more := [x] + [];
    case _ =>
  }

  lemma CanMeet(w: World, uid: Uid) returns (more: seq<Label>)
    requires uid in w.rows && Successes(w.runs, uid) == 0 && OnceInv(w, uid)
    requires IsOpen(w.rows[uid]) || !NoApprover(w, uid)
    ensures !OneApprover(Walk(w, more), uid)
  {
    hide Walk, Successes, OneApprover, IsOpen, Step;
    var first := [];
    WalkNothing(w);
    if !IsOpen(w.rows[uid]) {
      var t :| t in w.calls && Approves(w.calls[t], uid);
      assert Knows(w.calls[t], 0);
      first := ApproverOpens(w, uid, t);
    }
    var second := TwoCallsLoad(Walk(w, first), uid);
    WalkConcat(w, first, second);
    more := first + second;
  }

  /** From any point of a run in which no two calls have approved uid together so far, its registered executor can
      come to succeed twice if and only if it has not succeeded yet and the row is open or being approved. */
  lemma TwiceExactlyWhen(registry: set<string>, labels: seq<Label>, uid: Uid)
    requires NeverTwo(Begin(registry), labels, uid)
    requires var w := Walk(Begin(registry), labels); uid in w.rows && w.rows[uid].actionType in registry
    ensures var w := Walk(Begin(registry), labels);
      (exists more :: Successes(Walk(w, more).runs, uid) >= 2)
      <==> Successes(w.runs, uid) == 0 && (IsOpen(w.rows[uid]) || !NoApprover(w, uid))
  {
    hide Walk, Successes, Step, OnceInv, BusyInv, IsOpen, NoApprover, IsSpent;
    var w := Walk(Begin(registry), labels);
    BeginIsOnce(registry, uid);
    WalkKeepsOnce(Begin(registry), labels, uid);
    NobodyIsBusy(registry, uid);
    WalkKeepsBusy(Begin(registry), labels, uid);
    TwiceExactlyWhenTwoApprovers(registry, labels, uid);
    if Successes(w.runs, uid) == 0 && (IsOpen(w.rows[uid]) || !NoApprover(w, uid)) {
      var more := CanMeet(w, uid);
    } else {
      OtherwiseSpent(w, uid);
      AtMostOne(w, uid);
      forall more ensures Successes(Walk(w, more).runs, uid) <= 1 {
        SpentForever(w, more, uid);
      }
    }
  }

  lemma NobodyIsBusy(registry: set<string>, uid: Uid)
    ensures BusyInv(Begin(registry), uid)
  {
  }

  lemma OtherwiseSpent(w: World, uid: Uid)
    requires OnceInv(w, uid) && BusyInv(w, uid) && uid in w.rows
    requires !(Successes(w.runs, uid) == 0 && (IsOpen(w.rows[uid]) || !NoApprover(w, uid)))
    ensures IsSpent(w, uid)
  {
    hide Successes;
    forall t | t in w.calls && Approves(w.calls[t], uid) ensures w.calls[t] == Finishing(uid, Returned) {
      assert Knows(w.calls[t], Successes(w.runs, uid));
    }
    if !NoApprover(w, uid) {
      var t :| t in w.calls && Approves(w.calls[t], uid);
      assert IsBusy(w.calls[t], uid);
    }
  }

  lemma LeavesItself(w: World, uid: Uid)
    requires uid in w.rows && w.rows[uid].actionType in w.registry
    ensures forall t :: Leaves(w, w, uid, {t})
  {
  }

  lemma NoneReturned(registry: set<string>, uid: Uid)
    ensures |ReturnedCalls(Begin(registry), uid)| <= Successes(Begin(registry).runs, uid)
  {
  }

  lemma WalkNothing(w: World)
    ensures Walk(w, []) == w
  {
  }

  /** The successes that two approving calls have had already. */
  lemma TwoReturned(w: World, uid: Uid, t: Tid, u: Tid)
    requires t != u && t in w.calls && u in w.calls
    ensures |ReturnedCalls(w, uid)| >= (if w.calls[t] == Finishing(uid, Returned) then 1 else 0)
                                      + (if w.calls[u] == Finishing(uid, Returned) then 1 else 0)
  {
    var a := if w.calls[t] == Finishing(uid, Returned) then {t} else {};
    var b := if w.calls[u] == Finishing(uid, Returned) then {u} else {};
    assert a !! b && |a + b| == |a| + |b|;
    NotMore(a + b, ReturnedCalls(w, uid));
  }

  lemma {:induction false} WalkKeepsRegistry(w: World, labels: seq<Label>)
    ensures Walk(w, labels).registry == w.registry
    decreases |labels|
  {
    if labels != [] {
      hide Classify, Objection;
      WalkKeepsRegistry(Step(w, labels[0]), labels[1..]);
    }
  }

  // ----- what overlapping calls can do -----

  /** A yellow row is requested, and two calls read it while it is pending. */
  lemma TwoCallsRead(registry: set<string>, a: string, uid: Uid, approve: bool) returns (labels: seq<Label>, row: Row)
    requires a in registry && Classify(a) == Yellow
    ensures row == Row(a, Yellow, Pending, None, 1, 0, Some(86400.0))
    ensures Walk(Begin(registry), labels)
      == World(map[uid := row],
               map[0 := Finished, 1 := if approve then Approving(uid, row) else Rejecting(uid),
                    2 := Approving(uid, row)],
               registry, [], [])
  {
    hide Classify, Walk;
    row := Row(a, Yellow, Pending, None, 1, 0, Some(86400.0));
    var x, y, z := Start(0, Requesting(uid, a, None)), Move(0, 0.0, true, ""), Start(1, Deciding(uid, None, approve));
    WalkThree(Begin(registry), x, y, z);
    var v := World(map[uid := row], map[0 := Finished, 1 := Deciding(uid, None, approve)], registry, [], []);
    assert Step(Step(Step(Begin(registry), x), y), z) == v;
    var more := BothRead(v, uid, row, approve);
    labels := [x, y, z] + more;
    WalkConcat(Begin(registry), [x, y, z], more);
  }

  lemma BothRead(v: World, uid: Uid, row: Row, approve: bool) returns (more: seq<Label>)
    requires v.rows == map[uid := row] && v.calls == map[0 := Finished, 1 := Deciding(uid, None, approve)]
    requires row == Row(row.actionType, Yellow, Pending, None, 1, 0, Some(86400.0))
    ensures Walk(v, more) == v.(calls :=
      map[0 := Finished, 1 := if approve then Approving(uid, row) else Rejecting(uid), 2 := Approving(uid, row)])
  {
    hide Walk;
    var x, y, z := Start(2, Deciding(uid, None, true)), Move(1, 0.0, true, ""), Move(2, 0.0, true, "");
    WalkThree(v, x, y, z);
    more := [x, y, z];
  }

  lemma TwoSuccesses(uid: Uid)
    ensures Successes([Run(uid, Returned)] + [Run(uid, Returned)], uid) == 2
  {
    OneMoreRun([Run(uid, Returned)], Run(uid, Returned), uid);
    OneMoreRun([], Run(uid, Returned), uid);
    assert [] + [Run(uid, Returned)] == [Run(uid, Returned)];
  }

  /** An approving call writes the last approval and runs the executor, whatever has happened to the row since it read
      it. */
  lemma LastApprovalRuns(w: World, tid: Tid, uid: Uid, row: Row)
    requires tid in w.calls && w.calls[tid] == Approving(uid, row) && row.count + 1 >= Required(row)
    requires uid in w.rows && w.rows[uid].actionType in w.registry
    ensures var w' := Step(Step(w, Move(tid, 0.0, true, "")), Move(tid, 0.0, true, ""));
      && w'.runs == w.runs + [Run(uid, Returned)] && uid in w'.rows && w'.rows[uid].actionType == w.rows[uid].actionType
      && w'.calls == w.calls[tid := Finishing(uid, Returned)] && w'.registry == w.registry
  {
  }

  /** Two overlapping approvals of one yellow action can both run its executor, and both succeed. */
  lemma OverlappingApprovalsRunTwice(registry: set<string>, a: string, uid: Uid) returns (labels: seq<Label>)
    requires a in registry && Classify(a) == Yellow
    ensures Successes(Walk(Begin(registry), labels).runs, uid) == 2
  {
    var first, row := TwoCallsRead(registry, a, uid, true);
    hide Classify, Successes, Walk, Step;
    var w := Walk(Begin(registry), first);
    var m, n := Move(1, 0.0, true, ""), Move(2, 0.0, true, "");
    LastApprovalRuns(w, 1, uid, row);
    LastApprovalRuns(Step(Step(w, m), m), 2, uid, row);
    WalkFour(w, m, n);
    WalkConcat(Begin(registry), first, [m, m, n, n]);
    TwoSuccesses(uid);
    labels := first + [m, m, n, n];
    assert [] + [Run(uid, Returned)] == [Run(uid, Returned)];
  }

  lemma RejectionIsWritten(w: World, tid: Tid, uid: Uid)
    requires tid in w.calls && w.calls[tid] == Rejecting(uid) && uid in w.rows
    ensures var v := Step(w, Move(tid, 0.0, true, ""));
      && v.rows == w.rows[uid := w.rows[uid].(status := Rejected)] && v.calls == w.calls[tid := Finished]
      && v.registry == w.registry && v.runs == w.runs
  {
  }

  lemma SuccessIsWritten(w: World, tid: Tid, uid: Uid)
    requires tid in w.calls && w.calls[tid] == Finishing(uid, Returned) && uid in w.rows
    ensures var v := Step(w, Move(tid, 0.0, true, ""));
      uid in v.rows && v.rows[uid].status == Executed && v.runs == w.runs
  {
  }

  /** An approval that overlaps a rejection can run the executor of a rejected action. */
  lemma RejectedActionRuns(registry: set<string>, a: string, uid: Uid) returns (labels: seq<Label>, more: seq<Label>)
    requires a in registry && Classify(a) == Yellow
    ensures var w, v := Walk(Begin(registry), labels), Walk(Begin(registry), labels + more);
      && uid in w.rows && w.rows[uid].status == Rejected && w.runs == []
      && uid in v.rows && v.rows[uid].status == Executed && v.runs == [Run(uid, Returned)]
  {
    hide Classify, Walk, Step;
    var first, row := TwoCallsRead(registry, a, uid, false);
    var w := Walk(Begin(registry), first);
    var m, n := Move(1, 0.0, true, ""), Move(2, 0.0, true, "");
    RejectionIsWritten(w, 1, uid);
    var v := Step(w, m);
    LastApprovalRuns(v, 2, uid, row);
    SuccessIsWritten(Step(Step(v, n), n), 2, uid);
    WalkThree(v, n, n, n);
    WalkCons(w, m, []);
    WalkNothing(v);
    labels := first + [m];
    more := [n, n, n];
    assert [m] + [] == [m] && [] + [Run(uid, Returned)] == [Run(uid, Returned)];
    WalkConcat(Begin(registry), first, [m]);
    WalkConcat(Begin(registry), labels, more);
  }

  /** Two overlapping first approvals are counted as one: the second writes the count that both have read. */
  lemma OverlappingFirstApprovalsCountOnce(w: World, t: Tid, u: Tid, uid: Uid, row: Row, now: real)
    requires t in w.calls && u in w.calls && t != u && w.calls[t] == w.calls[u] == Approving(uid, row)
    requires uid in w.rows && row.count + 1 < Required(row)
    ensures var v := Step(Step(w, Move(t, now, true, uid)), Move(u, now, true, uid));
      && v.rows == w.rows[uid := w.rows[uid].(count := row.count + 1, status := Confirming)]
      && v.writes == w.writes + [Write(uid, t), Write(uid, u)] && v.runs == w.runs
  {
    var v := Step(w, Move(t, now, true, uid));
    assert v.calls[u] == Approving(uid, row) && v.writes == w.writes + [Write(uid, t)];
  }
}
