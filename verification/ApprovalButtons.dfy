/** The buttons of an approval card, and what pressing them decides. */
module ApprovalButtons {
  import opened ApprovalRules
  import opened ApprovalTheorems
  import opened Approvals
  import opened Wrappers

  const CB_PREFIX := "ap"
  const CB_APPROVE := "ok"
  const CB_REJECT := "no"
  const CB_CONFIRM := "ok2"

  function MakeCallback(kind: string, uid: Uid): string {
    CB_PREFIX + ":" + kind + ":" + uid
  }

  /** `s.split(":")`. */
  function Parts(s: string): (r: seq<string>)
    ensures |r| >= 1
  {
    if s == "" then [""] else
    var rest := Parts(s[1..]);
    if s[0] == ':' then [""] + rest else [[s[0]] + rest[0]] + rest[1..]
  }

  function ParseCallback(data: string): Option<(string, Uid)> {
    var parts := Parts(data);
    if |parts| != 3 || parts[0] != CB_PREFIX then None else Some((parts[1], parts[2]))
  }

  /** What a press decides, if anything. */
  function DecisionOf(data: string, user: Option<int>, succeeds: bool): Option<Op> {
    match ParseCallback(data)
    case None => None
    case Some((kind, uid)) =>
      if kind == CB_APPROVE || kind == CB_CONFIRM then Some(Approve(uid, user, succeeds))
      else if kind == CB_REJECT then Some(Reject(uid, user))
      else None
  }

  /** `handle_callback`, without its messages. */
  method HandleCallback(g: Gateway, data: string, user: Option<int>, succeeds: bool, now: real)
    modifies g
    ensures g.View() == match DecisionOf(data, user, succeeds)
                        case None => old(g.View())
                        case Some(op) => Apply(old(g.View()), Input(now, op)).0
  {
    var parsed := ParseCallback(data);
    if parsed.None? {
      return;
    }
    var kind, uid := parsed.value.0, parsed.value.1;
    var verdict;
    if kind == CB_APPROVE || kind == CB_CONFIRM {
      verdict := g.ApproveAction(uid, user, succeeds, now);
    } else if kind == CB_REJECT {
      verdict := g.RejectAction(uid, user, now);
    }
  }

  // ----- the payloads -----

  lemma {:induction false} PartsOfPlain(s: string)
    ensures ':' !in s ==> Parts(s) == [s]
    ensures ':' in s ==> |Parts(s)| >= 2
  {
    if s != "" {
      PartsOfPlain(s[1..]);
      assert s == [s[0]] + s[1..];
    }
  }

  lemma {:induction false} PartsJoined(a: string, b: string)
    ensures |Parts(a + ":" + b)| == |Parts(a)| + |Parts(b)|
    ensures ':' !in a ==> Parts(a + ":" + b) == [a] + Parts(b)
  {
    var s := a + ":" + b;
    if a == "" {
      assert s[1..] == b;
    } else {
      assert s[1..] == a[1..] + ":" + b;
      PartsJoined(a[1..], b);
      assert a == [a[0]] + a[1..];
    }
  }

  /** A payload is read back as it was made if and only if neither its kind nor its uid contains a colon. */
  lemma PayloadRoundTrip(kind: string, uid: Uid)
    ensures ParseCallback(MakeCallback(kind, uid)) == Some((kind, uid)) <==> ':' !in kind && ':' !in uid
  {
    var rest := kind + ":" + uid;
    assert MakeCallback(kind, uid) == CB_PREFIX + ":" + rest;
    PartsJoined(CB_PREFIX, rest);
    PartsJoined(kind, uid);
    PartsOfPlain(kind);
    PartsOfPlain(uid);
  }

  // ----- the two approving buttons -----

  /** A press of a button, or any other call. */
  datatype Act = Press(now: real, data: string, user: Option<int>, succeeds: bool) | Other(input: Input)

  /** The same payload with the kinds of the two approving buttons exchanged. */
  function Exchanged(data: string): string {
    match ParseCallback(data)
    case None => data
    case Some((kind, uid)) =>
      if kind == CB_APPROVE then MakeCallback(CB_CONFIRM, uid)
      else if kind == CB_CONFIRM then MakeCallback(CB_APPROVE, uid)
      else data
  }

  function Inputs(acts: seq<Act>): seq<Input> {
    if acts == [] then [] else
    var first := match acts[0]
      case Other(input) => [input]
      case Press(now, data, user, succeeds) =>
        var op := DecisionOf(data, user, succeeds);
        if op.Some? then [Input(now, op.value)] else [];
    first + Inputs(acts[1..])
  }

  function ExchangedAct(act: Act): Act {
    if act.Press? then act.(data := Exchanged(act.data)) else act
  }

  function ExchangedActs(acts: seq<Act>): seq<Act> {
    if acts == [] then [] else [ExchangedAct(acts[0])] + ExchangedActs(acts[1..])
  }

  lemma {:induction false} PartsHaveNoColon(s: string)
    ensures forall i :: 0 <= i < |Parts(s)| ==> ':' !in Parts(s)[i]
  {
    if s != "" {
      PartsHaveNoColon(s[1..]);
    }
  }

  lemma ExchangeDecidesAlike(data: string, user: Option<int>, succeeds: bool)
    ensures DecisionOf(Exchanged(data), user, succeeds) == DecisionOf(data, user, succeeds)
  {
    PartsHaveNoColon(data);
    if ParseCallback(data).Some? {
      var uid := ParseCallback(data).value.1;
      PayloadRoundTrip(CB_CONFIRM, uid);
      PayloadRoundTrip(CB_APPROVE, uid);
    }
  }

  lemma {:induction false} SameInputs(acts: seq<Act>)
    ensures Inputs(ExchangedActs(acts)) == Inputs(acts)
  {
    if acts != [] {
      SameInputs(acts[1..]);
      assert ExchangedActs(acts)[1..] == ExchangedActs(acts[1..]);
      if acts[0].Press? {
        ExchangeDecidesAlike(acts[0].data, acts[0].user, acts[0].succeeds);
      }
    }
  }

  /** Exchanging the two approving buttons in every press of a run changes no state, no verdict and no executor run: the
      second approval of a red action needs no other button. */
  lemma ButtonsAreInterchangeable(s: State, acts: seq<Act>)
    ensures Play(s, Inputs(ExchangedActs(acts))) == Play(s, Inputs(acts))
  {
    SameInputs(acts);
  }

  /** Pressing the first button twice approves a pending red action and runs its executor. */
  lemma OneButtonTwice(s: State, uid: Uid, user: Option<int>, now: real)
    requires uid in s.rows && ':' !in uid && s.rows[uid].actionType in s.registry
    requires s.rows[uid].status == Pending && s.rows[uid].count == 0 && s.rows[uid].required == 2
    requires Objection(s.rows[uid], user, now).None?
    ensures var press := Press(now, MakeCallback(CB_APPROVE, uid), user, true);
      var t := Play(s, Inputs([press, press])).0;
      uid in t.rows && t.rows[uid].status == Executed && t.runs == s.runs + [Run(uid, Returned)]
  {
    var press := Press(now, MakeCallback(CB_APPROVE, uid), user, true);
    PayloadRoundTrip(CB_APPROVE, uid);
    var input := Input(now, Approve(uid, user, true));
    assert [press, press][1..] == [press] && [press][1..] == [];
    assert Inputs([press]) == [input] + Inputs([]) == [input];
    assert Inputs([press, press]) == [input] + [input] == [input, input];
    TwoInputs(s, input);
  }

  lemma TwoInputs(s: State, input: Input)
    ensures Play(s, [input, input]).0 == Apply(Apply(s, input).0, input).0
  {
    hide Apply;
    assert [input, input][1..] == [input] && [input][1..] == [];
    assert Play(Apply(s, input).0, [input]).0 == Apply(Apply(s, input).0, input).0;
  }

  // ----- what each button does -----

  /** The state after a press. */
  function Pressed(s: State, act: Act): State {
    Play(s, Inputs([act])).0
  }

  lemma OnePress(s: State, now: real, data: string, user: Option<int>, succeeds: bool)
    ensures var op := DecisionOf(data, user, succeeds);
      Pressed(s, Press(now, data, user, succeeds)) == if op.Some? then Apply(s, Input(now, op.value)).0 else s
  {
    hide Apply, DecisionOf;
    var act, op := Press(now, data, user, succeeds), DecisionOf(data, user, succeeds);
    assert [act][1..] == [] && Inputs([]) == [];
    if op.Some? {
      assert Inputs([act]) == [Input(now, op.value)];
      OneInput(s, Input(now, op.value));
    } else {
      assert Inputs([act]) == [];
    }
  }

  lemma OneInput(s: State, input: Input)
    ensures Play(s, [input]).0 == Apply(s, input).0
  {
    hide Apply;
    assert [input][1..] == [];
  }

  /** The reject button rejects: pressed by one who may decide, it closes the row, runs nothing and leaves the other
      rows as they are; pressed by anyone else, or too late, it runs nothing either. */
  lemma RejectButton(s: State, uid: Uid, user: Option<int>, succeeds: bool, now: real)
    requires ':' !in uid
    ensures var t := Pressed(s, Press(now, "ap:no:" + uid, user, succeeds));
      && t.runs == s.runs
      && (uid !in s.rows ==> t == s)
      && (uid in s.rows && MayDecide(s.rows[uid], user, now) ==>
            t == s.(rows := s.rows[uid := s.rows[uid].(status := Rejected)],
                    events := s.events + [ApprovalRejected(uid)]))
  {
    var data := MakeCallback(CB_REJECT, uid);
    assert data == "ap:no:" + uid;
    PayloadRoundTrip(CB_REJECT, uid);
    OnePress(s, now, data, user, succeeds);
  }

  /** Both other buttons approve. */
  lemma ApproveButtons(s: State, uid: Uid, user: Option<int>, succeeds: bool, now: real, data: string)
    requires ':' !in uid && (data == "ap:ok:" + uid || data == "ap:ok2:" + uid)
    ensures Pressed(s, Press(now, data, user, succeeds)) == Apply(s, Input(now, Approve(uid, user, succeeds))).0
  {
    hide Apply;
    assert "ap:ok:" + uid == MakeCallback(CB_APPROVE, uid) && "ap:ok2:" + uid == MakeCallback(CB_CONFIRM, uid);
    PayloadRoundTrip(CB_APPROVE, uid);
    PayloadRoundTrip(CB_CONFIRM, uid);
    OnePress(s, now, data, user, succeeds);
  }

  /** No other payload decides anything. */
  lemma OtherPayloads(s: State, user: Option<int>, succeeds: bool, now: real, data: string)
    ensures Pressed(s, Press(now, data, user, succeeds)) == s
      || exists uid :: ':' !in uid && IsDecision(data, uid)
  {
    hide Apply, Pressed, Parts;
    OnePress(s, now, data, user, succeeds);
    if DecisionOf(data, user, succeeds).Some? {
      var (kind, uid) := ParseCallback(data).value;
      ParsedIsMade(data);
      assert IsDecision(data, uid);
    }
  }

  predicate IsDecision(data: string, uid: Uid) {
    data == "ap:no:" + uid || data == "ap:ok:" + uid || data == "ap:ok2:" + uid
  }

  /** What follows the first colon. */
  lemma {:induction false} AfterColon(s: string) returns (b: string)
    requires |Parts(s)| >= 2
    ensures s == Parts(s)[0] + ":" + b && Parts(s)[1..] == Parts(b)
  {
    b := s[1..];
    if s[0] != ':' {
      b := AfterColon(s[1..]);
      assert s == [s[0]] + s[1..] == ([s[0]] + Parts(s[1..])[0]) + ":" + b;
    } else {
      assert s == "" + ":" + b;
    }
  }

  lemma {:induction false} NoColon(s: string)
    ensures |Parts(s)| == 1 ==> Parts(s) == [s]
  {
    if s != "" {
      NoColon(s[1..]);
      assert s == [s[0]] + s[1..];
    }
  }

  lemma ParsedIsMade(data: string)
    requires ParseCallback(data).Some?
    ensures var (kind, uid) := ParseCallback(data).value;
      data == "ap:" + kind + ":" + uid && ':' !in kind && ':' !in uid
  {
    hide Parts;
    PartsHaveNoColon(data);
    var b := AfterColon(data);
    var c := AfterColon(b);
    NoColon(c);
    assert Parts(b) == Parts(data)[1..] && Parts(c) == Parts(b)[1..];
    assert c == Parts(data)[2] && Parts(b)[0] == Parts(data)[1];
    ThreeParts(data, b, Parts(b)[0], c);
  }

  lemma ThreeParts(data: string, b: string, kind: string, c: string)
    requires data == CB_PREFIX + ":" + b && b == kind + ":" + c
    ensures data == "ap:" + kind + ":" + c
  {
    assert data == "ap" + ":" + (kind + ":" + c);
  }
}
