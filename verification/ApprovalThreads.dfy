/** The gateway as several threads run it: every database statement is one step, in any interleaving. */
module ApprovalThreads {
  import opened Wrappers
  import opened Risk
  import opened Approvals

  type Tid = nat

  /** Where a call is. */
  datatype Call =
    | Requesting(uid: Uid, actionType: string, requestedBy: Option<int>)
    | Deciding(uid: Uid, user: Option<int>, approve: bool)   // before the SELECT of `_load_open`
    | Expiring(uid: Uid)                                     // the lazy check found it past due
    | Approving(uid: Uid, row: Row)                          // check passed on the row as it was read
    | Rejecting(uid: Uid)
    | Running(uid: Uid)                                      // `approved` is written; the executor is next
    | Finishing(uid: Uid, outcome: Outcome)                  // the executor came back; its status is not written yet
    | Selecting                                              // the sweep, before its SELECT
    | Sweeping(todo: set<Uid>)                               // selected rows not yet updated
    | Finished

  /** An approval written to a row, and the call that wrote it. */
  datatype Write = Write(uid: Uid, tid: Tid)

  /** runs and writes are history: no step reads them. */
  datatype World = World(rows: map<Uid, Row>, calls: map<Tid, Call>, registry: set<string>,
                         runs: seq<Run>, writes: seq<Write>)

  /** pick is the row a sweep updates next, if it is one of those left. */
  datatype Label = Start(tid: Tid, call: Call) | Move(tid: Tid, now: real, succeeds: bool, pick: Uid)

  predicate IsFirst(call: Call) {
    call.Requesting? || call.Deciding? || call.Selecting?
  }

  function SetStatus(w: World, uid: Uid, status: Status): World {
    if uid in w.rows then w.(rows := w.rows[uid := w.rows[uid].(status := status)]) else w
  }

  function Goto(w: World, tid: Tid, call: Call): World {
    w.(calls := w.calls[tid := call])
  }

  function Insert(w: World, tid: Tid, uid: Uid, actionType: string, owner: Option<int>, now: real): World {
    if uid in w.rows then Goto(w, tid, Finished) else
    var level := Classify(actionType);
    var auto := IsAuto(level);
    var row := NewRow(actionType, level, if auto then Approved else Pending, owner,
                      if auto then 1 else ApprovalsRequired(level), TtlFor(level), now);
    Goto(w.(rows := w.rows[uid := row]), tid, if auto then Running(uid) else Finished)
  }

  /** The SELECT of `_load_open` and the checks on the row it read. */
  function Load(w: World, tid: Tid, uid: Uid, user: Option<int>, approve: bool, now: real): World {
    if uid !in w.rows then Goto(w, tid, Finished) else
    var row := w.rows[uid];
    match Objection(row, user, now)
    case None => Goto(w, tid, if approve then Approving(uid, row) else Rejecting(uid))
    case Some(reason) => Goto(w, tid, if reason.TimedOut? && row.status != Expired then Expiring(uid) else Finished)
  }

  /** The UPDATE of `approve`, from the row as it was read. */
  function WriteApproval(w: World, tid: Tid, uid: Uid, row: Row): World {
    var count := row.count + 1;
    var last := count >= Required(row);
    var w' := if uid in w.rows
              then w.(rows := w.rows[uid :=
                w.rows[uid].(count := count, status := if last then Approved else Confirming)])
              else w;
    Goto(w'.(writes := w.writes + [Write(uid, tid)]), tid, if last then Running(uid) else Finished)
  }

  function RunExecutor(w: World, tid: Tid, uid: Uid, succeeds: bool): World {
    if uid !in w.rows then Goto(w, tid, Finished) else
    var outcome := OutcomeOf(w.registry, w.rows[uid].actionType, succeeds);
    Goto(w.(runs := w.runs + [Run(uid, outcome)]), tid, Finishing(uid, outcome))
  }

  function SweepOne(w: World, tid: Tid, todo: set<Uid>, pick: Uid): World {
    if todo == {} then Goto(w, tid, Finished)
    else if pick in todo then Goto(SetStatus(w, pick, Expired), tid, Sweeping(todo - {pick}))
    else w
  }

  function StepCall(w: World, tid: Tid, now: real, succeeds: bool, pick: Uid): World
    requires tid in w.calls
  {
    match w.calls[tid]
    case Requesting(uid, a, owner) => Insert(w, tid, uid, a, owner, now)
    case Deciding(uid, user, approve) => Load(w, tid, uid, user, approve, now)
    case Expiring(uid) => Goto(SetStatus(w, uid, Expired), tid, Finished)
    case Approving(uid, row) => WriteApproval(w, tid, uid, row)
    case Rejecting(uid) => Goto(SetStatus(w, uid, Rejected), tid, Finished)
    case Running(uid) => RunExecutor(w, tid, uid, succeeds)
    case Finishing(uid, outcome) =>
      Goto(SetStatus(w, uid, if outcome.Returned? then Executed else Failed), tid, Finished)
    case Selecting => Goto(w, tid, Sweeping(Stale(w.rows, now)))
    case Sweeping(todo) => SweepOne(w, tid, todo, pick)
    case Finished => w
  }

  /** One step; a label that does not apply changes nothing. */
  function Step(w: World, tick: Label): World {
    match tick
    case Start(tid, call) => if tid !in w.calls && IsFirst(call) then Goto(w, tid, call) else w
    case Move(tid, now, succeeds, pick) => if tid in w.calls then StepCall(w, tid, now, succeeds, pick) else w
  }

  /** A step moves its own call only, and not to a first step. */
  lemma NotFirstAgain(w: World, tick: Label)
    requires tick.Move? && tick.tid in w.calls
    ensures Moved(w, tick.tid, Step(w, tick))
  {
    hide Insert, Load, WriteApproval, RunExecutor, SweepOne;
    match w.calls[tick.tid]
    case Requesting(uid, a, owner) => InsertMoves(w, tick.tid, uid, a, owner, tick.now);
    case Deciding(uid, user, approve) => LoadMoves(w, tick.tid, uid, user, approve, tick.now);
    case Approving(uid, row) => WriteMoves(w, tick.tid, uid, row);
    case Running(uid) => RunMoves(w, tick.tid, uid, tick.succeeds);
    case Sweeping(todo) => SweepMoves(w, tick.tid, todo, tick.pick);
    case _ =>
  }

  /** The call is past its first step and the others are as they were. */
  predicate Moved(w: World, tid: Tid, v: World) {
    tid in v.calls && !IsFirst(v.calls[tid]) && v.calls == w.calls[tid := v.calls[tid]]
  }

  lemma InsertMoves(w: World, tid: Tid, uid: Uid, actionType: string, owner: Option<int>, now: real)
    ensures Moved(w, tid, Insert(w, tid, uid, actionType, owner, now))
  {
    hide Classify;
  }

  lemma LoadMoves(w: World, tid: Tid, uid: Uid, user: Option<int>, approve: bool, now: real)
    ensures Moved(w, tid, Load(w, tid, uid, user, approve, now))
  {
    hide Objection;
  }

  lemma WriteMoves(w: World, tid: Tid, uid: Uid, row: Row)
    ensures Moved(w, tid, WriteApproval(w, tid, uid, row))
  {
  }

  lemma RunMoves(w: World, tid: Tid, uid: Uid, succeeds: bool)
    ensures Moved(w, tid, RunExecutor(w, tid, uid, succeeds))
  {
  }

  lemma SweepMoves(w: World, tid: Tid, todo: set<Uid>, pick: Uid)
    requires tid in w.calls && w.calls[tid] == Sweeping(todo)
    ensures Moved(w, tid, SweepOne(w, tid, todo, pick))
  {
  }

  function Walk(w: World, labels: seq<Label>): World
    decreases |labels|
  {
    if labels == [] then w else Walk(Step(w, labels[0]), labels[1..])
  }

  function Begin(registry: set<string>): World {
    World(map[], map[], registry, [], [])
  }

  lemma {:induction false} WalkConcat(w: World, a: seq<Label>, b: seq<Label>)
    ensures Walk(w, a + b) == Walk(Walk(w, a), b)
    decreases |a|
  {
    if a == [] {
      assert a + b == b;
    } else {
      hide Step;
      assert (a + b)[1..] == a[1..] + b;
      WalkConcat(Step(w, a[0]), a[1..], b);
    }
  }

  lemma WalkThree(w: World, x: Label, y: Label, z: Label)
    ensures Walk(w, [x, y, z]) == Step(Step(Step(w, x), y), z)
  {
    hide Step;
    assert [x, y, z][1..] == [y, z] && [y, z][1..] == [z] && [z][1..] == [];
    assert Walk(w, [x, y, z]) == Walk(Step(w, x), [y, z]);
    assert Walk(Step(w, x), [y, z]) == Walk(Step(Step(w, x), y), [z]);
  }

  lemma WalkFour(w: World, x: Label, y: Label)
    ensures Walk(w, [x, x, y, y]) == Step(Step(Step(Step(w, x), x), y), y)
  {
    hide Step;
    assert [x, x, y, y][1..] == [x, y, y];
    WalkThree(Step(w, x), x, y, y);
  }

  // ----- enough approvals, under every interleaving -----

  /** Approvals written to uid. */
  function WrittenTo(writes: seq<Write>, uid: Uid): nat {
    if writes == [] then 0
    else WrittenTo(writes[..|writes| - 1], uid) + (if writes[|writes| - 1].uid == uid then 1 else 0)
  }

  lemma OneMoreWrite(writes: seq<Write>, x: Write, uid: Uid)
    ensures WrittenTo(writes + [x], uid) == WrittenTo(writes, uid) + (if x.uid == uid then 1 else 0)
  {
    assert (writes + [x])[..|writes|] == writes;
  }

  predicate Unwritten(writes: seq<Write>, tid: Tid) {
    forall i :: 0 <= i < |writes| ==> writes[i].tid != tid
  }

  /** No call writes more than one approval. */
  predicate OneEach(writes: seq<Write>) {
    forall i, j :: 0 <= i < j < |writes| ==> writes[i].tid != writes[j].tid
  }

  predicate Enough(w: World, uid: Uid) {
    uid in w.rows && WrittenTo(w.writes, uid) >= ApprovalsRequired(w.rows[uid].risk)
  }

  predicate CallInv(w: World, tid: Tid, call: Call) {
    match call
    case Requesting(_, _, _) => Unwritten(w.writes, tid)
    case Deciding(_, _, _) => Unwritten(w.writes, tid)
    case Approving(uid, row) =>
      && Unwritten(w.writes, tid) && uid in w.rows && 0 <= row.count <= WrittenTo(w.writes, uid)
      && row.required == w.rows[uid].required
    case Running(uid) => Enough(w, uid)
    case _ => true
  }

  predicate ThreadsInv(w: World) {
    && (forall u :: u in w.rows ==> RowBound(w, u))
    && (forall t :: t in w.calls ==> CallInv(w, t, w.calls[t]))
    && (forall i :: 0 <= i < |w.writes| ==> w.writes[i].tid in w.calls)
    && OneEach(w.writes)
    && (forall i :: 0 <= i < |w.runs| ==> Enough(w, w.runs[i].uid))
  }

  predicate RowBound(w: World, u: Uid)
    requires u in w.rows
  {
    && 0 <= w.rows[u].count <= WrittenTo(w.writes, u)
    && w.rows[u].required == (if w.rows[u].risk.Red? then 2 else 1)
  }

  /** A step that writes no approval, inserts nothing, and keeps counts, risks and requirements. */
  lemma QuietStepKeepsInv(w: World, w': World, tid: Tid)
    requires ThreadsInv(w) && w'.writes == w.writes && w'.rows.Keys == w.rows.Keys
    requires forall u :: u in w.rows ==> w'.rows[u].(status := w.rows[u].status) == w.rows[u]
    requires tid in w'.calls && forall t :: t in w'.calls && t != tid ==> t in w.calls && w'.calls[t] == w.calls[t]
    requires w.calls.Keys <= w'.calls.Keys && CallInv(w', tid, w'.calls[tid])
    requires w'.runs == w.runs || exists r :: w'.runs == w.runs + [r] && Enough(w, r.uid)
    ensures ThreadsInv(w')
  {
    hide WrittenTo;
    forall t | t in w'.calls ensures CallInv(w', t, w'.calls[t]) {
      if t != tid {
        assert CallInv(w, t, w.calls[t]);
      }
    }
    forall u | u in w'.rows ensures RowBound(w', u) {
      assert RowBound(w, u);
    }
    forall i | 0 <= i < |w'.runs| ensures Enough(w', w'.runs[i].uid) {
      if i < |w.runs| {
        assert Enough(w, w.runs[i].uid);
      }
    }
  }

  lemma InsertKeepsInv(w: World, tid: Tid, uid: Uid, a: string, owner: Option<int>, now: real)
    requires ThreadsInv(w) && tid in w.calls && uid !in w.rows
    ensures ThreadsInv(Insert(w, tid, uid, a, owner, now))
  {
    hide WrittenTo, Classify;
    var w' := Insert(w, tid, uid, a, owner, now);
    forall t | t in w'.calls ensures CallInv(w', t, w'.calls[t]) {
      if t != tid {
        assert CallInv(w, t, w.calls[t]);
      }
    }
    forall u | u in w'.rows ensures RowBound(w', u) {
      if u != uid {
        assert RowBound(w, u);
      }
    }
    forall i | 0 <= i < |w'.runs| ensures Enough(w', w'.runs[i].uid) {
      assert Enough(w, w.runs[i].uid);
    }
  }

  lemma WriteKeepsInv(w: World, tid: Tid, uid: Uid, row: Row)
    requires ThreadsInv(w) && tid in w.calls && w.calls[tid] == Approving(uid, row)
    ensures ThreadsInv(WriteApproval(w, tid, uid, row))
  {
    hide WrittenTo;
    var w' := WriteApproval(w, tid, uid, row);
    assert CallInv(w, tid, w.calls[tid]) && RowBound(w, uid);
    forall u ensures WrittenTo(w'.writes, u) == WrittenTo(w.writes, u) + (if u == uid then 1 else 0) {
      OneMoreWrite(w.writes, Write(uid, tid), u);
    }
    forall t | t in w'.calls ensures CallInv(w', t, w'.calls[t]) {
      if t != tid {
        assert CallInv(w, t, w.calls[t]);
      }
    }
    forall u | u in w'.rows ensures RowBound(w', u) {
      assert RowBound(w, u);
    }
    forall i | 0 <= i < |w'.runs| ensures Enough(w', w'.runs[i].uid) {
      assert Enough(w, w.runs[i].uid);
    }
  }

  lemma RequestKeepsInv(w: World, tid: Tid, now: real, succeeds: bool, pick: Uid)
    requires ThreadsInv(w) && tid in w.calls && w.calls[tid].Requesting?
    ensures ThreadsInv(StepCall(w, tid, now, succeeds, pick))
  {
    hide WrittenTo, Classify, ThreadsInv, Insert;
    var call := w.calls[tid];
    if call.uid !in w.rows {
      InsertKeepsInv(w, tid, call.uid, call.actionType, call.requestedBy, now);
    } else {
      InsertTaken(w, tid, call.uid, call.actionType, call.requestedBy, now);
      QuietStepKeepsInv(w, StepCall(w, tid, now, succeeds, pick), tid);
    }
  }

  lemma LoadKeepsInv(w: World, tid: Tid, now: real, succeeds: bool, pick: Uid)
    requires ThreadsInv(w) && tid in w.calls && w.calls[tid].Deciding?
    ensures ThreadsInv(StepCall(w, tid, now, succeeds, pick))
  {
    hide WrittenTo, ThreadsInv, Objection;
    CallHolds(w, tid);
    var uid := w.calls[tid].uid;
    if uid in w.rows {
      RowHolds(w, uid);
    }
    QuietStepKeepsInv(w, StepCall(w, tid, now, succeeds, pick), tid);
  }

  lemma RunKeepsInv(w: World, tid: Tid, now: real, succeeds: bool, pick: Uid)
    requires ThreadsInv(w) && tid in w.calls && w.calls[tid].Running?
    ensures ThreadsInv(StepCall(w, tid, now, succeeds, pick))
  {
    hide WrittenTo, ThreadsInv;
    CallHolds(w, tid);
    var uid := w.calls[tid].uid;
    var r := Run(uid, OutcomeOf(w.registry, w.rows[uid].actionType, succeeds));
    assert Enough(w, r.uid);
    QuietStepKeepsInv(w, StepCall(w, tid, now, succeeds, pick), tid);
  }

  lemma StatusKeepsInv(w: World, tid: Tid, uid: Uid, status: Status, call: Call)
    requires ThreadsInv(w) && tid in w.calls && (call.Finished? || call.Sweeping?)
    ensures ThreadsInv(Goto(SetStatus(w, uid, status), tid, call)) && ThreadsInv(Goto(w, tid, call))
  {
    hide WrittenTo, ThreadsInv;
    QuietStepKeepsInv(w, Goto(SetStatus(w, uid, status), tid, call), tid);
    QuietStepKeepsInv(w, Goto(w, tid, call), tid);
  }

  /** The steps that write a status or select rows. */
  lemma StatusStepKeepsInv(w: World, tid: Tid, now: real, succeeds: bool, pick: Uid)
    requires ThreadsInv(w) && tid in w.calls
    requires var call := w.calls[tid];
      !call.Requesting? && !call.Deciding? && !call.Approving? && !call.Running?
    ensures ThreadsInv(StepCall(w, tid, now, succeeds, pick))
  {
    hide ThreadsInv, SetStatus, Goto, Stale;
    match w.calls[tid]
    case Expiring(uid) => StatusKeepsInv(w, tid, uid, Expired, Finished);
    case Rejecting(uid) => StatusKeepsInv(w, tid, uid, Rejected, Finished);
    case Finishing(uid, outcome) =>
      StatusKeepsInv(w, tid, uid, if outcome.Returned? then Executed else Failed, Finished);
    case Selecting => StatusKeepsInv(w, tid, pick, Expired, Sweeping(Stale(w.rows, now)));
    case Sweeping(todo) =>
      StatusKeepsInv(w, tid, pick, Expired, Sweeping(todo - {pick}));
      StatusKeepsInv(w, tid, pick, Expired, Finished);
    case _ =>
  }

  lemma StepKeepsInv(w: World, tick: Label)
    requires ThreadsInv(w)
    ensures ThreadsInv(Step(w, tick))
  {
    hide ThreadsInv, WriteApproval, Insert, Load, RunExecutor, SweepOne, SetStatus;
    match tick
    case Start(tid, call) =>
      if tid !in w.calls && IsFirst(call) {
        NewCallIsUnwritten(w, tid);
        QuietStepKeepsInv(w, Goto(w, tid, call), tid);
      }
    case Move(tid, now, succeeds, pick) =>
      if tid in w.calls {
        match w.calls[tid]
        case Requesting(_, _, _) => RequestKeepsInv(w, tid, now, succeeds, pick);
        case Deciding(_, _, _) => LoadKeepsInv(w, tid, now, succeeds, pick);
        case Approving(uid, row) => WriteKeepsInv(w, tid, uid, row);
        case Running(_) => RunKeepsInv(w, tid, now, succeeds, pick);
        case _ => StatusStepKeepsInv(w, tid, now, succeeds, pick);
      }
  }

  lemma InsertTaken(w: World, tid: Tid, uid: Uid, a: string, owner: Option<int>, now: real)
    requires uid in w.rows
    ensures Insert(w, tid, uid, a, owner, now) == Goto(w, tid, Finished)
  {
  }

  lemma CallHolds(w: World, tid: Tid)
    requires ThreadsInv(w) && tid in w.calls
    ensures CallInv(w, tid, w.calls[tid])
  {
  }

  lemma RowHolds(w: World, uid: Uid)
    requires ThreadsInv(w) && uid in w.rows
    ensures RowBound(w, uid)
  {
  }

  lemma NewCallIsUnwritten(w: World, tid: Tid)
    requires ThreadsInv(w) && tid !in w.calls
    ensures Unwritten(w.writes, tid)
  {
  }

  lemma {:induction false} WalkKeepsInv(w: World, labels: seq<Label>)
    requires ThreadsInv(w)
    ensures ThreadsInv(Walk(w, labels))
    decreases |labels|
  {
    if labels != [] {
      StepKeepsInv(w, labels[0]);
      WalkKeepsInv(Step(w, labels[0]), labels[1..]);
    }
  }

  /** Whatever the interleaving, every executor call came after its 1 or 2 approvals, written by distinct calls. */
  lemma EnoughApprovalsInEveryInterleaving(registry: set<string>, labels: seq<Label>)
    ensures var w := Walk(Begin(registry), labels);
      && OneEach(w.writes)
      && (forall u :: u in w.rows ==> w.rows[u].count <= WrittenTo(w.writes, u))
      && (forall i :: 0 <= i < |w.runs| ==>
            w.runs[i].uid in w.rows
            && WrittenTo(w.writes, w.runs[i].uid) >= ApprovalsRequired(w.rows[w.runs[i].uid].risk))
  {
    WalkKeepsInv(Begin(registry), labels);
    var w := Walk(Begin(registry), labels);
    forall u | u in w.rows ensures w.rows[u].count <= WrittenTo(w.writes, u) {
      RowHolds(w, u);
    }
    assert forall i :: 0 <= i < |w.runs| ==> Enough(w, w.runs[i].uid);
  }
}
