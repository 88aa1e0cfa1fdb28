/** A row on which no two calls overlap has the history of atomic calls, whatever else the threads do. */
module ApprovalHistory {
  import opened ApprovalClosed
  import opened ApprovalOverlap
  import opened ApprovalTheorems
  import opened ApprovalThreads
  import opened Approvals
  import opened Risk
  import opened Sequences
  import opened Wrappers

  /** The outcomes of the runs of one executor, in order. */
  function RunsOf(runs: seq<Run>, uid: Uid): seq<Outcome> {
    if runs == [] then [] else
    var before, r := RunsOf(runs[..|runs| - 1], uid), runs[|runs| - 1];
    if r.uid == uid then before + [r.outcome] else before
  }

  lemma RunsOfMore(runs: seq<Run>, r: Run, uid: Uid)
    ensures RunsOf(runs + [r], uid) == if r.uid == uid then RunsOf(runs, uid) + [r.outcome] else RunsOf(runs, uid)
  {
    assert (runs + [r])[..|runs|] == runs;
  }

  function RowOf(rows: map<Uid, Row>, uid: Uid): Option<Row> {
    if uid in rows then Some(rows[uid]) else None
  }

  function Initial(registry: set<string>): State {
    State(map[], [], [], registry)
  }

  /** The interleaved world and the atomic state agree on a row and its runs. */
  predicate Settled(w: World, s: State, uid: Uid) {
    RowOf(w.rows, uid) == RowOf(s.rows, uid) && RunsOf(w.runs, uid) == RunsOf(s.runs, uid)
  }

  // ----- which call it was, for whom, and when -----

  /** How a call was started, and the clock at its first step. */
  datatype Origin = Origin(call: Call, clock: Option<real>)

  type Book = map<Tid, Origin>

  function Noted(w: World, b: Book, tick: Label): Book {
    match tick
    case Start(tid, call) => if tid !in w.calls && IsFirst(call) then b[tid := Origin(call, None)] else b
    case Move(tid, now, _, _) => if tid in b && b[tid].clock.None? then b[tid := b[tid].(clock := Some(now))] else b
  }

  /** The book after a walk. */
  function Books(w: World, b: Book, labels: seq<Label>): Book
    decreases |labels|
  {
    if labels == [] then b else Books(Step(w, labels[0]), Noted(w, b, labels[0]), labels[1..])
  }

  /** The atomic call that a call amounts to: the same request, decision or sweep, at the clock of its first step. */
  predicate IsCallOf(o: Origin, input: Input) {
    && o.clock == Some(input.now)
    && match o.call
       case Requesting(uid, a, owner) =>
         input.op.Request? && input.op.uid == uid && input.op.actionType == a && input.op.requestedBy == owner
       case Deciding(uid, user, approve) =>
         if approve then input.op.Approve? && input.op.uid == uid && input.op.user == user
         else input.op == Reject(uid, user)
       case Selecting => input.op == Sweep
       case _ => false
  }

  /** Every call is in the book, and has its clock there once it has taken its first step. */
  predicate IsBook(w: World, b: Book) {
    && b.Keys == w.calls.Keys
    && forall t :: t in w.calls ==>
      && IsFirst(b[t].call)
      && (if IsFirst(w.calls[t]) then b[t] == Origin(w.calls[t], None) else b[t].clock.Some?)
  }

  lemma NotedIsBook(w: World, b: Book, tick: Label)
    requires IsBook(w, b)
    ensures IsBook(Step(w, tick), Noted(w, b, tick))
    ensures forall t :: t in b && b[t].clock.Some? ==> t in Noted(w, b, tick) && Noted(w, b, tick)[t] == b[t]
  {
    hide StepCall;
    if tick.Move? && tick.tid in w.calls {
      NotFirstAgain(w, tick);
      hide IsFirst;
      var v, c := Step(w, tick), Noted(w, b, tick);
      assert v.calls.Keys == w.calls.Keys && c.Keys == b.Keys;
    }
  }

  // ----- the phases of a call -----

  /** The call is a decision on uid; its check of the row came out so. */
  predicate Judged(o: Origin, uid: Uid, row: Row, verdict: Option<Reason>) {
    o.call.Deciding? && o.call.uid == uid && o.clock.Some? && Objection(row, o.call.user, o.clock.value) == verdict
  }

  /** The approved row is that of the green request just made, or of the approval of the row in the atomic state. */
  predicate IsReady(o: Origin, uid: Uid, row: Row, before: Option<Row>) {
    match before
    case None =>
      && o.call.Requesting? && o.call.uid == uid && o.clock.Some?
      && IsAuto(Classify(o.call.actionType))
      && row == NewRow(o.call.actionType, Classify(o.call.actionType), Approved, o.call.requestedBy, 1,
                       TtlFor(Classify(o.call.actionType)), o.clock.value)
    case Some(r) =>
      && Judged(o, uid, r, None) && o.call.approve && r.count + 1 >= Required(r)
      && row == r.(count := r.count + 1, status := Approved)
  }

  /** What a call that is engaged with uid has done to it so far. */
  predicate InPhase(w: World, s: State, uid: Uid, call: Call, o: Origin) {
    match call
    case Expiring(_) => Settled(w, s, uid) && uid in w.rows && Judged(o, uid, w.rows[uid], Some(TimedOut))
    case Rejecting(_) => Settled(w, s, uid) && uid in w.rows && Judged(o, uid, w.rows[uid], None) && !o.call.approve
    case Approving(_, row) =>
      Settled(w, s, uid) && uid in w.rows && w.rows[uid] == row && Judged(o, uid, row, None) && o.call.approve
    case Sweeping(_) =>
      Settled(w, s, uid) && uid in w.rows && o.call.Selecting? && o.clock.Some? && IsStale(w.rows[uid], o.clock.value)
    case Running(_) =>
      uid in w.rows && IsReady(o, uid, w.rows[uid], RowOf(s.rows, uid)) && RunsOf(w.runs, uid) == RunsOf(s.runs, uid)
    case Finishing(_, outcome) =>
      && uid in w.rows && IsReady(o, uid, w.rows[uid], RowOf(s.rows, uid))
      && RunsOf(w.runs, uid) == RunsOf(s.runs, uid) + [outcome]
      && (outcome.NoExecutor? <==> w.rows[uid].actionType !in w.registry)
    case _ => true
  }

  predicate NobodyEngaged(w: World, uid: Uid) {
    forall t :: t in w.calls ==> !Engaged(w.calls[t], uid)
  }

  predicate Tracks(w: World, s: State, uid: Uid, b: Book) {
    && s.registry == w.registry && IsBook(w, b)
    && (forall t :: t in w.calls && Engaged(w.calls[t], uid) ==> InPhase(w, s, uid, w.calls[t], b[t]))
    && (NobodyEngaged(w, uid) ==> Settled(w, s, uid))
  }

  function After(s: State, input: Option<Input>): State {
    if input.Some? then Apply(s, input.value).0 else s
  }

  /** The atomic call that an engaged call amounts to when it lets go of uid. */
  lemma LettingGo(w: World, tick: Label, s: State, o: Origin, uid: Uid) returns (input: Input)
    requires tick.Move? && tick.tid in w.calls && tick.tid in Step(w, tick).calls && s.registry == w.registry
    requires Engaged(w.calls[tick.tid], uid) && !Engaged(Step(w, tick).calls[tick.tid], uid)
    requires InPhase(w, s, uid, w.calls[tick.tid], o)
    ensures Settled(Step(w, tick), Apply(s, input).0, uid) && Apply(s, input).0.registry == s.registry
    ensures IsCallOf(o, input)
  {
    hide RunsOf, Classify, Objection, IsStale;
    match w.calls[tick.tid]
    case Expiring(_) =>
      var op := if o.call.approve then Approve(uid, o.call.user, true) else Reject(uid, o.call.user);
      input := Input(o.clock.value, op);
    case Rejecting(_) =>
      input := Input(o.clock.value, Reject(uid, o.call.user));
    case Approving(_, _) =>
      input := Input(o.clock.value, Approve(uid, o.call.user, true));
    case Sweeping(_) =>
      input := Input(o.clock.value, Sweep);
    case Finishing(_, outcome) =>
      input := RunIsOver(w, s, o, uid, outcome);
    case _ =>
  }

  lemma RunIsOver(w: World, s: State, o: Origin, uid: Uid, outcome: Outcome) returns (input: Input)
    requires InPhase(w, s, uid, Finishing(uid, outcome), o) && s.registry == w.registry
    ensures IsCallOf(o, input)
    ensures var t := Apply(s, input).0;
      && uid in t.rows && t.rows[uid] == w.rows[uid].(status := if outcome.Returned? then Executed else Failed)
      && RunsOf(t.runs, uid) == RunsOf(w.runs, uid) && t.registry == s.registry
  {
    hide RunsOf, Classify, Objection;
    RunsOfMore(s.runs, Run(uid, outcome), uid);
    input := Input(o.clock.value, if uid in s.rows then Approve(uid, o.call.user, outcome.Returned?)
                                  else Request(uid, o.call.actionType, o.call.requestedBy, outcome.Returned?));
  }

  /** A call that stays engaged goes from phase to phase. */
  lemma StayingOn(w: World, tick: Label, s: State, o: Origin, uid: Uid)
    requires tick.Move? && tick.tid in w.calls && tick.tid in Step(w, tick).calls && s.registry == w.registry
    requires Engaged(w.calls[tick.tid], uid) && Engaged(Step(w, tick).calls[tick.tid], uid)
    requires InPhase(w, s, uid, w.calls[tick.tid], o)
    ensures InPhase(Step(w, tick), s, uid, Step(w, tick).calls[tick.tid], o)
  {
    hide RunsOf, Classify, Objection, IsStale;
    if w.calls[tick.tid].Running? {
      RunsOfMore(w.runs, Run(uid, OutcomeOf(w.registry, w.rows[uid].actionType, tick.succeeds)), uid);
    }
  }

  /** A call becomes engaged with a row that is settled. */
  lemma GettingHold(w: World, tick: Label, s: State, uid: Uid)
    requires tick.Move? && tick.tid in w.calls && tick.tid in Step(w, tick).calls && Settled(w, s, uid)
    requires !Engaged(w.calls[tick.tid], uid) && Engaged(Step(w, tick).calls[tick.tid], uid)
    ensures IsFirst(w.calls[tick.tid])
    ensures InPhase(Step(w, tick), s, uid, Step(w, tick).calls[tick.tid], Origin(w.calls[tick.tid], Some(tick.now)))
  {
    hide RunsOf, Classify, Objection, IsStale;
  }

  /** A step of a call that is not engaged with uid: at most, it inserts the row. */
  lemma LookingOn(w: World, tick: Label, s: State, uid: Uid) returns (input: Option<Input>)
    requires tick.Move? && tick.tid in w.calls && tick.tid in Step(w, tick).calls && s.registry == w.registry
    requires !Engaged(w.calls[tick.tid], uid) && !Engaged(Step(w, tick).calls[tick.tid], uid)
    ensures IsAside(w, tick, s, uid, input)
    ensures input.Some? ==>
      IsFirst(w.calls[tick.tid]) && IsCallOf(Origin(w.calls[tick.tid], Some(tick.now)), input.value)
  {
    hide RunsOf, Classify, Objection, IsStale;
    input := None;
    match w.calls[tick.tid]
    case Requesting(u, a, owner) =>
      if u == uid && uid !in w.rows {
        input := Some(Input(tick.now, Request(uid, a, owner, true)));
      }
    case Running(u) =>
      if u in w.rows {
        RunsOfMore(w.runs, Run(u, OutcomeOf(w.registry, w.rows[u].actionType, tick.succeeds)), uid);
      }
    case _ =>
  }

  /** The step leaves the row and its runs alone, or inserts the row. */
  predicate IsAside(w: World, tick: Label, s: State, uid: Uid, input: Option<Input>) {
    var v := Step(w, tick);
    if input.None? then RowOf(v.rows, uid) == RowOf(w.rows, uid) && RunsOf(v.runs, uid) == RunsOf(w.runs, uid)
    else uid !in w.rows && (Settled(w, s, uid) ==>
           Settled(v, Apply(s, input.value).0, uid) && Apply(s, input.value).0.registry == s.registry)
  }

  /** A phase depends on its own row and runs only. */
  lemma SamePhase(w: World, v: World, s: State, uid: Uid, call: Call, o: Origin)
    requires RowOf(v.rows, uid) == RowOf(w.rows, uid) && RunsOf(v.runs, uid) == RunsOf(w.runs, uid)
    requires v.registry == w.registry && InPhase(w, s, uid, call, o)
    ensures InPhase(v, s, uid, call, o)
  {
    hide RunsOf, IsReady, Judged, IsStale;
  }

  lemma RegistryStays(w: World, tid: Tid, now: real, succeeds: bool, pick: Uid)
    requires tid in w.calls
    ensures StepCall(w, tid, now, succeeds, pick).registry == w.registry
  {
    hide Classify, Objection;
  }

  /** What one step of a call adds to the atomic run, if anything; the call has then finished with uid. */
  lemma TracksStep(w: World, tick: Label, s: State, uid: Uid, b: Book) returns (input: Option<Input>)
    requires Tracks(w, s, uid, b) && NoOverlap(w, uid) && NoOverlap(Step(w, tick), uid)
    requires tick.Move? && tick.tid in w.calls
    ensures var v, c := Step(w, tick), Noted(w, b, tick);
      && Tracks(v, After(s, input), uid, c)
      && (forall t :: Holds(w, t, uid) ==> Holds(v, t, uid) || (t == tick.tid && input.Some?))
      && (input.Some? ==>
            && tick.tid in c && IsCallOf(c[tick.tid], input.value) && IsActive(w, tick.tid, uid)
            && tick.tid in v.calls && !IsActive(v, tick.tid, uid))
  {
    hide StepCall, RunsOf, Classify, Engaged, InPhase, Settled, Apply, IsCallOf, IsFirst;
    var v := Step(w, tick);
    RunsCounted(w, v, tick.tid, tick.now, tick.succeeds, tick.pick, uid);
    RegistryStays(w, tick.tid, tick.now, tick.succeeds, tick.pick);
    NotedIsBook(w, b, tick);
    NotFirstAgain(w, tick);
    BookOf(w, tick, b);
    var before, after := Engaged(w.calls[tick.tid], uid), Engaged(v.calls[tick.tid], uid);
    input := None;
    if before && after {
      StayingOn(w, tick, s, b[tick.tid], uid);
    } else if before {
      var last := LettingGo(w, tick, s, b[tick.tid], uid);
      input := Some(last);
    } else {
      NobodyIsEngaged(w, v, tick.tid, uid);
      if after {
        GettingHold(w, tick, s, uid);
      } else {
        input := LookingOn(w, tick, s, uid);
        StillTracks(w, tick, s, uid, b, input);
      }
    }
  }

  predicate Holds(w: World, t: Tid, uid: Uid) {
    t in w.calls && Engaged(w.calls[t], uid)
  }

  /** The call may still get hold of uid, or has hold of it. */
  predicate IsActive(w: World, t: Tid, uid: Uid) {
    t in w.calls && (IsFirst(w.calls[t]) || Engaged(w.calls[t], uid))
  }

  /** The book tells the call and the clock of a first step, and of no other. */
  lemma BookOf(w: World, tick: Label, b: Book)
    requires IsBook(w, b) && tick.Move? && tick.tid in w.calls
    ensures var c := Noted(w, b, tick);
      && c.Keys == b.Keys
      && (IsFirst(w.calls[tick.tid]) ==> c[tick.tid] == Origin(w.calls[tick.tid], Some(tick.now)))
      && (!IsFirst(w.calls[tick.tid]) ==> c[tick.tid] == b[tick.tid])
      && (forall t :: t in b && t != tick.tid ==> c[t] == b[t])
    ensures forall uid :: Engaged(w.calls[tick.tid], uid) ==> !IsFirst(w.calls[tick.tid])
  {
  }

  /** If a call becomes engaged nobody else was; if it does not, nobody is afterwards exactly when nobody was before. */
  lemma NobodyIsEngaged(w: World, v: World, tid: Tid, uid: Uid)
    requires tid in w.calls && tid in v.calls && v.calls == w.calls[tid := v.calls[tid]]
    requires NoOverlap(v, uid) && !Engaged(w.calls[tid], uid)
    ensures Engaged(v.calls[tid], uid) ==> NobodyEngaged(w, uid) && !NobodyEngaged(v, uid)
    ensures !Engaged(v.calls[tid], uid) ==> (NobodyEngaged(v, uid) <==> NobodyEngaged(w, uid))
  {
    hide Engaged;
    assert forall t :: t in w.calls ==> t in v.calls && (t == tid || v.calls[t] == w.calls[t]);
    assert forall t :: t in v.calls ==> t in w.calls;
  }

  lemma StillTracks(w: World, tick: Label, s: State, uid: Uid, b: Book, input: Option<Input>)
    requires Tracks(w, s, uid, b) && tick.Move? && tick.tid in w.calls && IsAside(w, tick, s, uid, input)
    requires var v := Step(w, tick);
      && tick.tid in v.calls && v.calls == w.calls[tick.tid := v.calls[tick.tid]] && v.registry == w.registry
      && !Engaged(w.calls[tick.tid], uid) && !Engaged(v.calls[tick.tid], uid)
      && (NobodyEngaged(v, uid) <==> NobodyEngaged(w, uid))
    ensures Tracks(Step(w, tick), After(s, input), uid, Noted(w, b, tick))
  {
    hide StepCall, RunsOf, Engaged, InPhase, Apply;
    NotedIsBook(w, b, tick);
    BookOf(w, tick, b);
    var v, c := Step(w, tick), Noted(w, b, tick);
    if input.None? {
      forall t | t in v.calls && Engaged(v.calls[t], uid) ensures InPhase(v, s, uid, v.calls[t], c[t]) {
        SamePhase(w, v, s, uid, w.calls[t], b[t]);
      }
    } else {
      forall t | t in w.calls ensures !Engaged(w.calls[t], uid) {
        EngagedHasRow(w, s, uid, w.calls[t], b[t]);
      }
    }
  }

  lemma EngagedHasRow(w: World, s: State, uid: Uid, call: Call, o: Origin)
    requires uid !in w.rows
    ensures Engaged(call, uid) ==> !InPhase(w, s, uid, call, o)
  {
  }

  // ----- whole walks -----

  /** The inputs are the calls of their owners, who are all different. */
  predicate AreCallsOf(b: Book, owners: seq<Tid>, inputs: seq<Input>) {
    && |owners| == |inputs| && Distinct(owners)
    && forall i :: 0 <= i < |owners| ==> owners[i] in b && IsCallOf(b[owners[i]], inputs[i])
  }

  /** Every call that has hold of uid at some point is among the owners, unless it still has at the end. */
  ghost predicate HoldersAreOwners(w: World, labels: seq<Label>, uid: Uid, owners: seq<Tid>) {
    forall k: nat, t :: k <= |labels| && Holds(Walk(w, labels[..k]), t, uid) ==>
      t in owners || Holds(Walk(w, labels), t, uid)
  }

  lemma HoldersMore(w: World, labels: seq<Label>, uid: Uid, others: seq<Tid>, owners: seq<Tid>)
    requires labels != [] && HoldersAreOwners(Step(w, labels[0]), labels[1..], uid, others)
    requires forall t :: t in others ==> t in owners
    requires forall t :: Holds(w, t, uid) ==> Holds(Step(w, labels[0]), t, uid) || t in owners
    ensures HoldersAreOwners(w, labels, uid, owners)
  {
    hide Step, Holds;
    var v, rest := Step(w, labels[0]), labels[1..];
    forall k: nat, t | k <= |labels| && Holds(Walk(w, labels[..k]), t, uid)
      ensures t in owners || Holds(Walk(w, labels), t, uid)
    {
      if k == 0 {
        assert labels[..0] == [] && rest[..0] == [];
        assert Walk(v, rest[..0]) == v;
        assert Holds(v, t, uid) ==> Holds(Walk(v, rest[..0]), t, uid);
      } else {
        assert labels[..k][1..] == rest[..k - 1] && labels[..k][0] == labels[0];
      }
    }
  }

  /** A call that has finished with uid does not come back to it, and its place in the book is final. */
  lemma StaysInactive(w: World, tick: Label, t: Tid, uid: Uid)
    requires t in w.calls && !IsActive(w, t, uid)
    ensures t in Step(w, tick).calls && !IsActive(Step(w, tick), t, uid)
  {
    hide StepCall;
    if tick.Move? && tick.tid in w.calls {
      NotFirstAgain(w, tick);
      if tick.tid == t {
        MovesInactive(w, tick, uid);
      }
    }
  }

  lemma MovesInactive(w: World, tick: Label, uid: Uid)
    requires tick.Move? && tick.tid in w.calls && !IsActive(w, tick.tid, uid)
    ensures tick.tid in Step(w, tick).calls && !IsActive(Step(w, tick), tick.tid, uid)
  {
    hide Classify, Objection, Stale;
  }

  lemma {:induction false} InactiveForever(w: World, b: Book, labels: seq<Label>, t: Tid, uid: Uid)
    requires IsBook(w, b) && t in w.calls && !IsActive(w, t, uid)
    ensures t in Walk(w, labels).calls && !IsActive(Walk(w, labels), t, uid)
    ensures t in b && t in Books(w, b, labels) && Books(w, b, labels)[t] == b[t]
    decreases |labels|
  {
    hide Step, IsActive, IsBook, Noted;
    InactiveIsNoted(w, b, t, uid);
    if labels != [] {
      StaysInactive(w, labels[0], t, uid);
      NotedIsBook(w, b, labels[0]);
      InactiveForever(Step(w, labels[0]), Noted(w, b, labels[0]), labels[1..], t, uid);
    }
  }

  lemma InactiveIsNoted(w: World, b: Book, t: Tid, uid: Uid)
    requires IsBook(w, b) && t in w.calls && !IsActive(w, t, uid)
    ensures t in b && b[t].clock.Some?
  {
  }

  /** In any interleaving, as long as no two calls are engaged with uid, there is a run of atomic calls that tracks
      it: its inputs are calls of the interleaving, each once, with its own user and clock. */
  lemma {:induction false} WalkIsTracked(w: World, b: Book, labels: seq<Label>, s: State, uid: Uid)
    returns (inputs: seq<Input>, owners: seq<Tid>)
    requires Tracks(w, s, uid, b) && NeverOverlaps(w, labels, uid)
    ensures Tracks(Walk(w, labels), Play(s, inputs).0, uid, Books(w, b, labels))
    ensures AreCallsOf(Books(w, b, labels), owners, inputs)
    ensures forall t :: t in owners ==> t !in w.calls || IsActive(w, t, uid)
    ensures HoldersAreOwners(w, labels, uid, owners)
    decreases |labels|
  {
    hide Tracks, NoOverlap, StepCall, Apply, IsActive, IsCallOf, Noted, HoldersAreOwners, Holds;
    inputs, owners := [], [];
    if labels == [] {
      NoHolders(w, uid);
    } else {
      var v, c := Step(w, labels[0]), Noted(w, b, labels[0]);
      assert NeverOverlaps(v, labels[1..], uid) && NoOverlap(v, uid) && NoOverlap(w, uid);
      var input := TracksLabel(w, labels[0], s, uid, b);
      var later, others := WalkIsTracked(v, c, labels[1..], After(s, input), uid);
      inputs, owners := later, others;
      NewlyActive(w, labels[0], uid);
      if input.Some? {
        var t := labels[0].tid;
        TracksABook(v, After(s, input), uid, c);
        InactiveForever(v, c, labels[1..], t, uid);
        inputs, owners := [input.value] + later, [t] + others;
        assert inputs[1..] == later;
      }
      HoldersMore(w, labels, uid, others, owners);
    }
  }

  lemma NoHolders(w: World, uid: Uid)
    ensures HoldersAreOwners(w, [], uid, [])
  {
    forall k: nat, t | k <= 0 && Holds(Walk(w, [][..k]), t, uid) ensures Holds(Walk(w, []), t, uid) {
    }
  }

  lemma TracksABook(w: World, s: State, uid: Uid, b: Book)
    requires Tracks(w, s, uid, b)
    ensures IsBook(w, b)
  {
  }

  /** A call that is active after a step was active or not started before. */
  lemma NewlyActive(w: World, tick: Label, uid: Uid)
    ensures forall t ::
      IsActive(Step(w, tick), t, uid) || t !in Step(w, tick).calls ==> t !in w.calls || IsActive(w, t, uid)
  {
    hide Step, IsActive;
    forall t | t in w.calls && !IsActive(w, t, uid)
      ensures t in Step(w, tick).calls && !IsActive(Step(w, tick), t, uid) {
      StaysInactive(w, tick, t, uid);
    }
  }

  lemma TracksLabel(w: World, tick: Label, s: State, uid: Uid, b: Book) returns (input: Option<Input>)
    requires Tracks(w, s, uid, b) && NoOverlap(w, uid) && NoOverlap(Step(w, tick), uid)
    ensures var v, c := Step(w, tick), Noted(w, b, tick);
      && Tracks(v, After(s, input), uid, c)
      && (forall t :: Holds(w, t, uid) ==> Holds(v, t, uid) || (t == tick.tid && input.Some?))
      && (input.Some? ==>
            && tick.tid in c && IsCallOf(c[tick.tid], input.value) && IsActive(w, tick.tid, uid)
            && tick.tid in v.calls && !IsActive(v, tick.tid, uid))
  {
    input := None;
    if tick.Move? && tick.tid in w.calls {
      input := TracksStep(w, tick, s, uid, b);
    } else {
      StartIsTracked(w, tick, s, uid, b);
    }
  }

  lemma StartIsTracked(w: World, tick: Label, s: State, uid: Uid, b: Book)
    requires Tracks(w, s, uid, b) && !(tick.Move? && tick.tid in w.calls)
    ensures Tracks(Step(w, tick), s, uid, Noted(w, b, tick))
  {
    hide RunsOf, StepCall;
    NotedIsBook(w, b, tick);
    hide IsBook;
    var v, c := Step(w, tick), Noted(w, b, tick);
    BookGrows(w, b, tick);
    forall t | t in w.calls ensures t in v.calls && v.calls[t] == w.calls[t] && c[t] == b[t] {
    }
    forall t | t in v.calls && Engaged(v.calls[t], uid) ensures InPhase(v, s, uid, v.calls[t], c[t]) {
      SamePhase(w, v, s, uid, w.calls[t], b[t]);
    }
  }

  lemma BookGrows(w: World, b: Book, tick: Label)
    requires IsBook(w, b) && !(tick.Move? && tick.tid in w.calls)
    ensures forall t :: t in w.calls ==> t in b && t in Noted(w, b, tick) && Noted(w, b, tick)[t] == b[t]
  {
  }

  lemma BeginIsTracked(registry: set<string>, uid: Uid)
    ensures Tracks(Begin(registry), Initial(registry), uid, map[])
  {
  }

  /** When no call is engaged with it any more, a row on which no two calls have overlapped, and the runs of its
      executor, are those of a run of atomic calls. These are calls of the interleaving, each once: the same requests,
      decisions by the same users, and sweeps, at the clock of their first steps; and every call that ever had hold of
      the row is one. */
  lemma RowHasAtomicHistory(registry: set<string>, labels: seq<Label>, uid: Uid)
    returns (inputs: seq<Input>, owners: seq<Tid>)
    requires NeverOverlaps(Begin(registry), labels, uid) && NobodyEngaged(Walk(Begin(registry), labels), uid)
    ensures var w, s := Walk(Begin(registry), labels), Play(Initial(registry), inputs).0;
      RowOf(w.rows, uid) == RowOf(s.rows, uid) && RunsOf(w.runs, uid) == RunsOf(s.runs, uid)
    ensures AreCallsOf(Books(Begin(registry), map[], labels), owners, inputs)
    ensures forall k: nat, t :: k <= |labels| && Holds(Walk(Begin(registry), labels[..k]), t, uid) ==> t in owners
  {
    hide Walk, Play, RunsOf, Books, AreCallsOf;
    BeginIsTracked(registry, uid);
    inputs, owners := WalkIsTracked(Begin(registry), map[], labels, Initial(registry), uid);
  }

  lemma {:induction false} RunsOfCount(runs: seq<Run>, uid: Uid)
    ensures Attempts(runs, uid) == |RunsOf(runs, uid)|
  {
    if runs != [] {
      RunsOfCount(runs[..|runs| - 1], uid);
    }
  }

  lemma InitialInv(registry: set<string>)
    ensures Inv(Initial(registry))
  {
  }

  /** So the counts of such a row say how often its executor has run, as they do when calls are atomic. */
  lemma CountsHoldWithoutOverlap(registry: set<string>, labels: seq<Label>, uid: Uid)
    requires NeverOverlaps(Begin(registry), labels, uid) && NobodyEngaged(Walk(Begin(registry), labels), uid)
    requires uid in Walk(Begin(registry), labels).rows
    ensures var w := Walk(Begin(registry), labels);
      var row := w.rows[uid];
      && Attempts(w.runs, uid) == (if row.risk.Green? then 1 + row.count else Max(0, row.count - row.required + 1))
      && (row.status == Confirming ==> 0 < row.count < row.required)
  {
    hide Walk, Play, RunsOf, Attempts, Inv, Books, IsCallOf, Holds;
    var inputs, owners := RowHasAtomicHistory(registry, labels, uid);
    var w, s := Walk(Begin(registry), labels), Play(Initial(registry), inputs).0;
    InitialInv(registry);
    PlayKeepsInv(Initial(registry), inputs);
    RunsOfCount(w.runs, uid);
    RunsOfCount(s.runs, uid);
    RowCounts(s, uid);
  }

  lemma RowCounts(s: State, uid: Uid)
    requires Inv(s) && uid in s.rows
    ensures var row := s.rows[uid];
      && Attempts(s.runs, uid) == (if row.risk.Green? then 1 + row.count else Max(0, row.count - row.required + 1))
      && (row.status == Confirming ==> 0 < row.count < row.required)
  {
    assert UidInv(s, uid);
  }
}
