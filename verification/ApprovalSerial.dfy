/** A call of the interleaved gateway that nothing interrupts is a call of the atomic one. */
module ApprovalSerial {
  import opened Wrappers
  import opened Risk
  import opened Approvals
  import opened ApprovalThreads

  // ----- a call whose steps nothing interrupts is an atomic call -----

  function Moves(tid: Tid, now: real, succeeds: bool, n: nat): seq<Label> {
    if n == 0 then [] else [Move(tid, now, succeeds, "")] + Moves(tid, now, succeeds, n - 1)
  }

  /** n steps of one call, with nothing in between. */
  function Alone(w: World, tid: Tid, now: real, succeeds: bool, n: nat): (r: World)
    requires tid in w.calls
    ensures tid in r.calls
    decreases n
  {
    if n == 0 then w else
    StillThere(w, tid, now, succeeds);
    Alone(StepCall(w, tid, now, succeeds, ""), tid, now, succeeds, n - 1)
  }

  lemma {:induction false} AloneIsWalk(w: World, tid: Tid, now: real, succeeds: bool, n: nat)
    requires tid in w.calls
    ensures Alone(w, tid, now, succeeds, n) == Walk(w, Moves(tid, now, succeeds, n))
    decreases n
  {
    if n > 0 {
      hide StepCall;
      var labels := Moves(tid, now, succeeds, n);
      assert labels[1..] == Moves(tid, now, succeeds, n - 1);
      StillThere(w, tid, now, succeeds);
      AloneIsWalk(StepCall(w, tid, now, succeeds, ""), tid, now, succeeds, n - 1);
    }
  }

  lemma StillThere(w: World, tid: Tid, now: real, succeeds: bool)
    requires tid in w.calls
    ensures tid in StepCall(w, tid, now, succeeds, "").calls
  {
  }

  predicate Matches(w: World, s: State) {
    w.rows == s.rows && w.runs == s.runs && w.registry == s.registry
  }

  /** `_execute` as two steps. */
  lemma RunsToTheEnd(w: World, tid: Tid, uid: Uid, now: real, succeeds: bool, s: State)
    requires tid in w.calls && w.calls[tid] == Running(uid) && uid in w.rows && Matches(w, s)
    ensures var w' := Alone(w, tid, now, succeeds, 2);
      Matches(w', ExecuteRow(s, uid, succeeds)) && w'.calls[tid] == Finished
  {
    var w1 := StepCall(w, tid, now, succeeds, "");
    var w2 := StepCall(w1, tid, now, succeeds, "");
    assert Alone(w1, tid, now, succeeds, 1) == Alone(w2, tid, now, succeeds, 0) == w2;
  }

  lemma {:induction false} FinishedStays(w: World, tid: Tid, now: real, succeeds: bool, n: nat)
    requires tid in w.calls && w.calls[tid] == Finished
    ensures Alone(w, tid, now, succeeds, n) == w
    decreases n
  {
    if n > 0 {
      FinishedStays(w, tid, now, succeeds, n - 1);
    }
  }

  /** Load, write, run, write, uninterrupted, have the effect of one atomic approval or rejection. */
  lemma SerialDecisionIsAtomic(w: World, tid: Tid, uid: Uid, user: Option<int>, approve: bool,
                               now: real, succeeds: bool, s: State)
    requires tid in w.calls && w.calls[tid] == Deciding(uid, user, approve) && Matches(w, s)
    ensures var op := if approve then Approve(uid, user, succeeds) else Reject(uid, user);
      var w' := Alone(w, tid, now, succeeds, 4);
      Matches(w', Apply(s, Input(now, op)).0) && w'.calls[tid] == Finished
  {
    hide Objection, PastDue, ExecuteRow;
    var w1 := StepCall(w, tid, now, succeeds, "");
    if uid !in w.rows {
      FinishedStays(w1, tid, now, succeeds, 3);
    } else {
      var objection := Objection(w.rows[uid], user, now);
      ClosedIsNotLate(w.rows[uid], user, now);
      if objection.Some? {
        RefusedAlone(w, w1, tid, uid, user, approve, now, succeeds, s);
      } else if !approve {
        var w2 := StepCall(w1, tid, now, succeeds, "");
        FinishedStays(w2, tid, now, succeeds, 2);
      } else {
        var w2 := StepCall(w1, tid, now, succeeds, "");
        var row := w.rows[uid];
        if row.count + 1 < Required(row) {
          FinishedStays(w2, tid, now, succeeds, 2);
        } else {
          var mid := s.(rows := s.rows[uid := row.(count := row.count + 1, status := Approved)]);
          RunsToTheEnd(w2, tid, uid, now, succeeds, mid);
        }
      }
    }
  }

  lemma ClosedIsNotLate(row: Row, user: Option<int>, now: real)
    ensures Objection(row, user, now) == Some(TimedOut) && row.status == Expired ==> AfterRefusal(row, user, now) == row
  {
  }

  lemma RefusedAlone(w: World, w1: World, tid: Tid, uid: Uid, user: Option<int>, approve: bool,
                     now: real, succeeds: bool, s: State)
    requires tid in w.calls && w.calls[tid] == Deciding(uid, user, approve) && Matches(w, s) && uid in w.rows
    requires w1 == StepCall(w, tid, now, succeeds, "") && Objection(w.rows[uid], user, now).Some?
    ensures var w' := Alone(w1, tid, now, succeeds, 3);
      w'.rows == s.rows[uid := AfterRefusal(s.rows[uid], user, now)] && w'.runs == s.runs && w'.registry == s.registry
      && w'.calls[tid] == Finished
  {
    hide Objection, PastDue;
    ClosedIsNotLate(w.rows[uid], user, now);
    if w1.calls[tid] == Finished {
      FinishedStays(w1, tid, now, succeeds, 3);
      assert s.rows == s.rows[uid := s.rows[uid]];
    } else {
      var w2 := StepCall(w1, tid, now, succeeds, "");
      FinishedStays(w2, tid, now, succeeds, 2);
    }
  }

  /** Insert, run, write, uninterrupted, have the effect of one atomic request. */
  lemma SerialRequestIsAtomic(w: World, tid: Tid, uid: Uid, a: string, owner: Option<int>,
                              now: real, succeeds: bool, s: State)
    requires tid in w.calls && w.calls[tid] == Requesting(uid, a, owner) && Matches(w, s)
    ensures var w' := Alone(w, tid, now, succeeds, 3);
      Matches(w', Apply(s, Input(now, Request(uid, a, owner, succeeds))).0) && w'.calls[tid] == Finished
  {
    hide Classify, ExecuteRow;
    var w1 := StepCall(w, tid, now, succeeds, "");
    if uid !in w.rows && IsAuto(Classify(a)) {
      var row := NewRow(a, Classify(a), Approved, owner, 1, TtlFor(Classify(a)), now);
      RunsToTheEnd(w1, tid, uid, now, succeeds, s.(rows := s.rows[uid := row]));
    } else {
      FinishedStays(w1, tid, now, succeeds, 2);
    }
  }

  /** The steps of a sweep that updates its rows in the given order. */
  function SweepMoves(tid: Tid, now: real, order: seq<Uid>): seq<Label> {
    if order == [] then [Move(tid, now, true, "")]
    else [Move(tid, now, true, order[0])] + SweepMoves(tid, now, order[1..])
  }

  lemma {:induction false} SweepsTheRest(w: World, tid: Tid, now: real, todo: set<Uid>, order: seq<Uid>)
    requires tid in w.calls && w.calls[tid] == Sweeping(todo) && todo <= w.rows.Keys
    requires (forall u :: u in order <==> u in todo) && |order| == |todo|
    ensures var w' := Walk(w, SweepMoves(tid, now, order));
      && w'.rows == (map u | u in w.rows :: if u in todo then w.rows[u].(status := Expired) else w.rows[u])
      && w'.runs == w.runs && w'.registry == w.registry && tid in w'.calls && w'.calls[tid] == Finished
    decreases |order|
  {
    var labels := SweepMoves(tid, now, order);
    if order == [] {
      assert labels[1..] == [];
      assert Walk(w, labels) == Step(w, labels[0]);
    } else {
      var u, rest := order[0], order[1..];
      assert labels[1..] == SweepMoves(tid, now, rest);
      var w1 := Step(w, labels[0]);
      RestOfOrder(order, todo);
      SweepsTheRest(w1, tid, now, todo - {u}, rest);
      assert Walk(w, labels) == Walk(w1, SweepMoves(tid, now, rest));
    }
  }

  lemma RestOfOrder(order: seq<Uid>, todo: set<Uid>)
    requires order != [] && (forall u :: u in order <==> u in todo) && |order| == |todo|
    ensures forall u :: u in order[1..] <==> u in todo - {order[0]}
  {
    var u, rest := order[0], order[1..];
    var others := set x | x in rest;
    NoMoreThanLength(rest);
    assert todo == others + {u};
    assert u in others ==> others + {u} == others;
  }

  lemma {:induction false} NoMoreThanLength(q: seq<Uid>)
    ensures |set x | x in q| <= |q|
  {
    if q != [] {
      NoMoreThanLength(q[1..]);
      assert (set x | x in q) == (set x | x in q[1..]) + {q[0]};
    }
  }

  /** Select and the updates in any order, uninterrupted, have the effect of one atomic sweep. */
  lemma SerialSweepIsAtomic(w: World, tid: Tid, now: real, order: seq<Uid>, s: State)
    requires tid in w.calls && w.calls[tid] == Selecting && Matches(w, s)
    requires (forall u :: u in order <==> u in Stale(w.rows, now)) && |order| == |Stale(w.rows, now)|
    ensures var w' := Walk(w, [Move(tid, now, true, "")] + SweepMoves(tid, now, order));
      Matches(w', Apply(s, Input(now, Sweep)).0) && tid in w'.calls && w'.calls[tid] == Finished
  {
    hide IsStale;
    var first, rest := Move(tid, now, true, ""), SweepMoves(tid, now, order);
    assert ([first] + rest)[1..] == rest;
    SweepsTheRest(Step(w, first), tid, now, Stale(w.rows, now), order);
  }
}
