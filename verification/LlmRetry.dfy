/** Posting to a language model: retries with backoff, a fallback endpoint, and three tries for JSON. */
module LlmRetry {
  import opened Wrappers

  /** What the body of a response is good for. */
  datatype Body = NotAMessage | Unparsed | Parsed(value: string)

  /** The outcome of one POST; challenged: the body looks like an interstitial page of Cloudflare. */
  datatype Reply = Raised | Response(status: nat, challenged: bool, body: Body)

  datatype Target = Primary | Fallback

  datatype Post = Post(target: Target, reply: Reply)

  /** The error of one ladder with the status of its last response, if it had any, or of both ladders. */
  datatype LLMError = Ended(status: Option<nat>) | BothEnded(primary: Option<nat>, fallback: Option<nat>)

  /** How a chat ends: a message, from which JSON may be extracted, an LLMError, or an exception of another kind. */
  datatype Outcome = Message(json: Option<string>) | Failed(error: LLMError) | Crashed

  predicate IsRetryable(r: Reply) {
    r.Response? && (r.status in {403, 404, 429} || r.challenged)
  }

  /** Returned to the caller; a stream is not read to look for a challenge. */
  predicate IsAccepted(r: Reply, stream: bool) {
    r.Response? && r.status < 400 && (stream || !IsRetryable(r))
  }

  /** Worth another try. */
  predicate IsTransient(r: Reply, stream: bool) {
    r.Raised? || (!IsAccepted(r, stream) && IsRetryable(r))
  }

  const WAITS: seq<nat> := [0, 3, 8, 15]

  /** The seconds slept before this many posts of one ladder. */
  function Backoff(posts: nat): nat
    requires posts <= 4
  {
    if posts == 0 then 0 else Backoff(posts - 1) + WAITS[posts - 1]
  }

  /** The replies to one ladder that has `left` tries left, when the n-th post of the session is answered by feed(n). */
  function Ladder(feed: nat -> Reply, at: nat, left: nat, target: Target, stream: bool): seq<Post>
    decreases left
  {
    if left == 0 then [] else
    var more := if IsTransient(feed(at), stream) then Ladder(feed, at + 1, left - 1, target, stream) else [];
    [Post(target, feed(at))] + more
  }

  function Last(posts: seq<Post>): Reply
    requires posts != []
  {
    posts[|posts| - 1].reply
  }

  /** The status of the last response among the posts. */
  function LastStatus(posts: seq<Post>): Option<nat> {
    if posts == [] then None
    else if Last(posts).Response? then Some(Last(posts).status)
    else LastStatus(posts[..|posts| - 1])
  }

  /** The posts of a chat: the fallback is tried only when it is configured and the primary has failed. */
  function ChatPosts(feed: nat -> Reply, at: nat, hasFallback: bool, stream: bool): (posts: seq<Post>)
    ensures posts != []
  {
    var primary := Ladder(feed, at, 4, Primary, stream);
    if IsAccepted(Last(primary), stream) || !hasFallback then primary
    else primary + Ladder(feed, at + |primary|, 4, Fallback, stream)
  }

  function PostResult(feed: nat -> Reply, at: nat, hasFallback: bool, stream: bool): Result<Reply, LLMError> {
    var primary := Ladder(feed, at, 4, Primary, stream);
    if IsAccepted(Last(primary), stream) then Success(Last(primary))
    else if !hasFallback then Failure(Ended(LastStatus(primary)))
    else
      var fallback := Ladder(feed, at + |primary|, 4, Fallback, stream);
      if IsAccepted(Last(fallback), stream) then Success(Last(fallback))
      else Failure(BothEnded(LastStatus(primary), LastStatus(fallback)))
  }

  function ChatOutcome(r: Result<Reply, LLMError>): Outcome {
    match r
    case Failure(error) => Failed(error)
    case Success(Raised) => Crashed
    case Success(Response(_, _, body)) =>
      match body
      case NotAMessage => Crashed
      case Unparsed => Message(None)
      case Parsed(value) => Message(Some(value))
  }

  /** The seconds slept in the ladders of a chat. */
  function ChatBackoff(feed: nat -> Reply, at: nat, hasFallback: bool, stream: bool): nat {
    var primary := Ladder(feed, at, 4, Primary, stream);
    LadderShape(feed, at, 4, Primary, stream);
    if IsAccepted(Last(primary), stream) || !hasFallback then Backoff(|primary|) else
    LadderShape(feed, at + |primary|, 4, Fallback, stream);
    Backoff(|primary|) + Backoff(|Ladder(feed, at + |primary|, 4, Fallback, stream)|)
  }

  /** What one ladder looks like. */
  lemma {:induction false} LadderShape(feed: nat -> Reply, at: nat, left: nat, target: Target, stream: bool)
    requires left >= 1
    ensures var l := Ladder(feed, at, left, target, stream);
      && 1 <= |l| <= left
      && (forall i :: 0 <= i < |l| ==> l[i] == Post(target, feed(at + i)))
      && (forall i :: 0 <= i < |l| - 1 ==> IsTransient(l[i].reply, stream))
      && (|l| < left ==> !IsTransient(Last(l), stream))
    decreases left
  {
    hide IsTransient;
    if left > 1 {
      LadderShape(feed, at + 1, left - 1, target, stream);
    }
  }

  // ----- structured output -----

  /** A chat as it went. */
  datatype Attempt = Attempt(posts: seq<Post>, slept: nat, outcome: Outcome)

  /** What `structured_output` gives: an object, an error of the provider or of parsing, or another exception. */
  datatype Answer = Json(value: string) | ChatFailed(jsonMode: Option<LLMError>, plain: LLMError) | NoJson | Crash

  function AttemptAt(feed: nat -> Reply, at: nat, hasFallback: bool): Attempt {
    Attempt(ChatPosts(feed, at, hasFallback, false), ChatBackoff(feed, at, hasFallback, false),
            ChatOutcome(PostResult(feed, at, hasFallback, false)))
  }

  /** The chats with so many tries in JSON mode left, before the plain one. */
  function Attempts(feed: nat -> Reply, at: nat, hasFallback: bool, left: nat): (r: seq<Attempt>)
    ensures r != []
    decreases left
  {
    var a := AttemptAt(feed, at, hasFallback);
    if left == 0 || a.outcome.Crashed? || (a.outcome.Message? && a.outcome.json.Some?) then [a]
    else [a] + Attempts(feed, at + |a.posts|, hasFallback, if a.outcome.Failed? then 0 else left - 1)
  }

  function Posts(attempts: seq<Attempt>): seq<Post> {
    if attempts == [] then [] else attempts[0].posts + Posts(attempts[1..])
  }

  function Slept(attempts: seq<Attempt>): nat {
    if attempts == [] then 0 else attempts[0].slept + Slept(attempts[1..])
  }

  /** The answer when the last chat came out so, after an LLMError in JSON mode or not. */
  function AnswerTo(jsonMode: Option<LLMError>, o: Outcome): Answer {
    match o
    case Crashed => Crash
    case Message(json) => if json.Some? then Json(json.value) else NoJson
    case Failed(error) => ChatFailed(jsonMode, error)
  }

  function AnswerOf(attempts: seq<Attempt>): Answer
    requires attempts != []
  {
    AnswerTo(JsonModeError(attempts[..|attempts| - 1]), attempts[|attempts| - 1].outcome)
  }

  /** The error that ended JSON mode, if the last of its chats failed. */
  function JsonModeError(attempts: seq<Attempt>): Option<LLMError> {
    if attempts != [] && attempts[|attempts| - 1].outcome.Failed?
    then Some(attempts[|attempts| - 1].outcome.error)
    else None
  }

  lemma NoAttempts()
    ensures Posts([]) == [] && Slept([]) == 0
  {
  }

  lemma AttemptsStep(feed: nat -> Reply, at: nat, hasFallback: bool, left: nat, done: seq<Attempt>)
    ensures var a := AttemptAt(feed, at, hasFallback);
      done + Attempts(feed, at, hasFallback, left)
      == if left == 0 || a.outcome.Crashed? || (a.outcome.Message? && a.outcome.json.Some?) then done + [a]
         else done + [a] + Attempts(feed, at + |a.posts|, hasFallback, if a.outcome.Failed? then 0 else left - 1)
  {
    hide AttemptAt;
  }

  lemma NoStatus()
    ensures LastStatus([]) == None
  {
  }

  lemma BackoffStep(posts: nat)
    requires posts < 4
    ensures Backoff(0) == 0 && Backoff(posts + 1) == Backoff(posts) + WAITS[posts]
  {
  }

  /** One more post of a ladder after those done. */
  lemma LadderStep(feed: nat -> Reply, at: nat, left: nat, target: Target, stream: bool, done: seq<Post>)
    ensures Ladder(feed, at, 0, target, stream) == []
    ensures left > 0 ==>
      var done' := done + [Post(target, feed(at))];
      done + Ladder(feed, at, left, target, stream)
      == if IsTransient(feed(at), stream) then done' + Ladder(feed, at + 1, left - 1, target, stream) else done'
  {
    hide IsTransient;
    if left > 0 {
      var more := if IsTransient(feed(at), stream) then Ladder(feed, at + 1, left - 1, target, stream) else [];
      assert Ladder(feed, at, left, target, stream) == [Post(target, feed(at))] + more;
      assert done + ([Post(target, feed(at))] + more) == done + [Post(target, feed(at))] + more;
    }
  }

  /** How the loop tells what to do with a reply. */
  lemma Judged(r: Reply, stream: bool)
    ensures r.Raised? ==> IsTransient(r, stream) && !IsAccepted(r, stream)
    ensures r.Response? ==>
      && (IsAccepted(r, stream) <==> r.status < 400 && (stream || !IsRetryable(r)))
      && (IsTransient(r, stream) <==> !IsAccepted(r, stream) && IsRetryable(r))
  {
  }

  lemma StatusStep(start: seq<Post>, done: seq<Post>, p: Post)
    ensures start + done + [p] == start + (done + [p])
    ensures LastStatus(done + [p]) == if p.reply.Response? then Some(p.reply.status) else LastStatus(done)
  {
    assert (done + [p])[..|done|] == done;
  }

  lemma {:induction false} OneMoreAttempt(done: seq<Attempt>, a: Attempt)
    ensures Posts(done + [a]) == Posts(done) + a.posts && Slept(done + [a]) == Slept(done) + a.slept
  {
    if done == [] {
      assert done + [a] == [a] && [a][1..] == [];
    } else {
      assert (done + [a])[1..] == done[1..] + [a];
      OneMoreAttempt(done[1..], a);
    }
  }

  lemma AttemptsSoFar(start: seq<Post>, done: seq<Attempt>, a: Attempt)
    ensures start + Posts(done) + a.posts == start + Posts(done + [a])
    ensures Slept(done + [a]) == Slept(done) + a.slept
    ensures AnswerOf(done + [a]) == AnswerTo(JsonModeError(done), a.outcome)
  {
    OneMoreAttempt(done, a);
    assert (done + [a])[..|done|] == done;
    assert start + Posts(done) + a.posts == start + (Posts(done) + a.posts);
  }

  class Provider {
    const feed: nat -> Reply
    const fallbackBase: string
    const fallbackModel: string
    var posts: seq<Post>
    var slept: nat

    constructor (feed: nat -> Reply, fallbackBase: string, fallbackModel: string)
      ensures this.feed == feed && this.fallbackBase == fallbackBase && this.fallbackModel == fallbackModel
      ensures posts == [] && slept == 0
    {
      this.feed, this.fallbackBase, this.fallbackModel := feed, fallbackBase, fallbackModel;
      posts, slept := [], 0;
    }

    predicate HasFallback() {
      fallbackBase != "" || fallbackModel != ""
    }

    method PostOnce(target: Target) returns (r: Reply)
      modifies this`posts
      ensures r == feed(|old(posts)|) && posts == old(posts) + [Post(target, r)]
    {
      r := feed(|posts|);
      posts := posts + [Post(target, r)];
    }

    /** `_post_with_backoff`. */
    method PostWithBackoff(target: Target, stream: bool) returns (r: Result<Reply, LLMError>)
      modifies this`posts, this`slept
      ensures var l := Ladder(feed, |old(posts)|, 4, target, stream);
        && posts == old(posts) + l
        && |l| <= 4 && slept == old(slept) + Backoff(|l|)
        && r == (if IsAccepted(Last(l), stream) then Success(Last(l)) else Failure(Ended(LastStatus(l))))
    {
      hide Ladder, LastStatus, IsRetryable, IsTransient, IsAccepted, Backoff;
      var lastStatus: Option<nat> := None;
      ghost var n, done: seq<Post> := |posts|, [];
      ghost var l := Ladder(feed, n, 4, target, stream);
      LadderStep(feed, n, 0, target, stream, []);
      assert LastStatus([]) == None by { NoStatus(); }
      BackoffStep(0);
      for attempt := 0 to 4
        invariant |done| == attempt && posts == old(posts) + done
        invariant l == done + Ladder(feed, n + attempt, 4 - attempt, target, stream)
        invariant slept == old(slept) + Backoff(attempt)
        invariant lastStatus == LastStatus(done)
        invariant attempt > 0 ==> !IsAccepted(Last(done), stream)
      {
        LadderStep(feed, n + attempt, 4 - attempt, target, stream, done);
        BackoffStep(attempt);
        if WAITS[attempt] != 0 {
          slept := slept + WAITS[attempt];
        }
        var resp := PostOnce(target);
        Judged(resp, stream);
        StatusStep(old(posts), done, Post(target, resp));
        done := done + [Post(target, resp)];
        if resp.Raised? {
          continue;
        }
        if resp.status < 400 && (stream || !IsRetryable(resp)) {
          assert l == done;
          return Success(resp);
        }
        lastStatus := Some(resp.status);
        if !IsRetryable(resp) {
          assert l == done;
          return Failure(Ended(lastStatus));
        }
      }
      LadderStep(feed, n + 4, 0, target, stream, done);
      assert l == done + [] == done;
      return Failure(Ended(lastStatus));
    }

    /** `_post`. */
    method PostChat(stream: bool) returns (r: Result<Reply, LLMError>)
      modifies this`posts, this`slept
      ensures posts == old(posts) + ChatPosts(feed, |old(posts)|, HasFallback(), stream)
      ensures slept == old(slept) + ChatBackoff(feed, |old(posts)|, HasFallback(), stream)
      ensures r == PostResult(feed, |old(posts)|, HasFallback(), stream)
    {
      hide Ladder;
      r := PostWithBackoff(Primary, stream);
      if r.Failure? && (fallbackBase != "" || fallbackModel != "") {
        var second := PostWithBackoff(Fallback, stream);
        match second
        case Success(resp) => r := Success(resp);
        case Failure(error) => r := Failure(BothEnded(r.error.status, error.status));
      }
    }

    /** `chat`. */
    method Chat() returns (ghost a: Attempt, o: Outcome)
      modifies this`posts, this`slept
      ensures a == AttemptAt(feed, |old(posts)|, HasFallback()) && o == a.outcome
      ensures posts == old(posts) + a.posts && slept == old(slept) + a.slept
    {
      a := AttemptAt(feed, |posts|, HasFallback());
      var r := PostChat(false);
      o := ChatOutcome(r);
    }

    /** `structured_output`: two tries in JSON mode, then one without it. */
    method StructuredOutput() returns (r: Answer)
      modifies this`posts, this`slept
      ensures var attempts := Attempts(feed, |old(posts)|, HasFallback(), 2);
        posts == old(posts) + Posts(attempts) && slept == old(slept) + Slept(attempts) && r == AnswerOf(attempts)
    {
      hide AttemptAt, Posts, Slept, Attempts, AnswerOf;
      var lastError: Option<LLMError> := None;
      ghost var n, done: seq<Attempt>, left := |posts|, [], 2;
      assert Posts(done) == [] && Slept(done) == 0 by { NoAttempts(); }
      for attempt := 0 to 2
        invariant posts == old(posts) + Posts(done) && slept == old(slept) + Slept(done)
        invariant |done| == attempt && left == 2 - attempt && lastError == None
        invariant Attempts(feed, n, HasFallback(), 2) == done + Attempts(feed, |posts|, HasFallback(), left)
        invariant JsonModeError(done) == None
      {
        AttemptsStep(feed, |posts|, HasFallback(), left, done);
        ghost var a;
        var o;
        a, o := Chat();
        AttemptsSoFar(old(posts), done, a);
        done := done + [a];
        match o {
          case Crashed =>
            return Crash;
          case Failed(error) =>
            lastError, left := Some(error), 0;
            break;
          case Message(json) =>
            if json.Some? {
              return Json(json.value);
            }
            left := left - 1;
        }
      }
      AttemptsStep(feed, |posts|, HasFallback(), 0, done);
      ghost var a;
      var o;
      a, o := Chat();
      AttemptsSoFar(old(posts), done, a);
      match o {
        case Crashed => return Crash;
        case Failed(error) => return ChatFailed(lastError, error);
        case Message(json) => return if json.Some? then Json(json.value) else NoJson;
      }
    }
  }

  // ----- limits on every chat and every structured answer -----

  lemma BackoffIsShort(posts: nat)
    requires posts <= 4
    ensures Backoff(posts) <= 26
  {
    assert Backoff(4) == Backoff(3) + 15 && Backoff(3) == Backoff(2) + 8 && Backoff(2) == Backoff(1) + 3;
  }

  lemma TransientIsNotAccepted(stream: bool)
    ensures forall r :: IsTransient(r, stream) ==> !IsAccepted(r, stream)
  {
  }

  /** Whatever the replies: up to 4 posts to the primary, then up to 4 to the fallback; the fallback is reached
      exactly when it is configured and the primary has given up; each endpoint is tried again exactly while replies
      are transient; nothing is posted after the first acceptable reply, and that reply is the result. */
  lemma ChatShape(feed: nat -> Reply, at: nat, hasFallback: bool, stream: bool) returns (k: nat)
    ensures var p := ChatPosts(feed, at, hasFallback, stream);
      && 1 <= k <= 4 && k <= |p| <= k + 4
      && (forall i :: 0 <= i < |p| ==> p[i] == Post(if i < k then Primary else Fallback, feed(at + i)))
      && (forall i :: 0 <= i < |p| - 1 ==>
           !IsAccepted(p[i].reply, stream) && (i == k - 1 || IsTransient(p[i].reply, stream)))
      && (|p| > k <==> hasFallback && !IsAccepted(p[k - 1].reply, stream))
      && (k < 4 ==> !IsTransient(p[k - 1].reply, stream))
      && (k < |p| < k + 4 ==> !IsTransient(Last(p), stream))
      && (if IsAccepted(Last(p), stream) then PostResult(feed, at, hasFallback, stream) == Success(Last(p))
          else PostResult(feed, at, hasFallback, stream).Failure?)
    ensures ChatBackoff(feed, at, hasFallback, stream) <= 2 * 26
  {
    hide Ladder, Backoff, IsRetryable, IsAccepted, IsTransient, LastStatus;
    var primary := Ladder(feed, at, 4, Primary, stream);
    k := |primary|;
    LadderShape(feed, at, 4, Primary, stream);
    LadderShape(feed, at + k, 4, Fallback, stream);
    BackoffIsShort(k);
    BackoffIsShort(|Ladder(feed, at + k, 4, Fallback, stream)|);
    TransientIsNotAccepted(stream);
  }

  /** What is asked of the chats of one answer with so many tries in JSON mode left. */
  ghost predicate IsBounded(attempts: seq<Attempt>, left: nat)
    requires attempts != []
  {
    var p := Posts(attempts);
    && |attempts| <= left + 1 && 1 <= |p| <= 8 * (left + 1) && Slept(attempts) <= 2 * 26 * (left + 1)
    && (forall i :: 0 <= i < |p| - 1 && IsAccepted(p[i].reply, false) ==> p[i].reply.body.Unparsed?)
    && (forall v :: Outcome.Message(Some(v)) == attempts[|attempts| - 1].outcome
          <==> IsAccepted(Last(p), false) && Last(p).body == Parsed(v))
  }

  /** What is asked of one chat. */
  ghost predicate IsBoundedChat(a: Attempt) {
    && 1 <= |a.posts| <= 8 && a.slept <= 2 * 26
    && (forall i :: 0 <= i < |a.posts| - 1 ==> !IsAccepted(a.posts[i].reply, false))
    && (a.outcome == Message(None) ==> Last(a.posts).Response? && Last(a.posts).body.Unparsed?)
    && (a.outcome.Failed? ==> !IsAccepted(Last(a.posts), false))
    && (forall v :: a.outcome == Message(Some(v)) <==>
         IsAccepted(Last(a.posts), false) && Last(a.posts).body == Parsed(v))
  }

  lemma AttemptIsBounded(feed: nat -> Reply, at: nat, hasFallback: bool)
    ensures IsBoundedChat(AttemptAt(feed, at, hasFallback))
  {
    var k := ChatShape(feed, at, hasFallback, false);
    hide ChatPosts, ChatBackoff, PostResult;
  }

  lemma ThenMoreAttempts(a: Attempt, rest: seq<Attempt>, left: nat, left': nat)
    requires IsBoundedChat(a) && (a.outcome.Failed? || a.outcome == Message(None))
    requires rest != [] && IsBounded(rest, left') && left' < left
    ensures IsBounded([a] + rest, left)
  {
    hide IsRetryable, Posts, Slept;
    FirstAttempt(a, rest);
    var p, q := Posts([a] + rest), Posts(rest);
    assert Last(p) == Last(q);
    forall i | 0 <= i < |p| - 1 && IsAccepted(p[i].reply, false) ensures p[i].reply.body.Unparsed? {
      assert p[i] == if i < |a.posts| then a.posts[i] else q[i - |a.posts|];
    }
  }

  lemma {:induction false} AttemptsAreBounded(feed: nat -> Reply, at: nat, hasFallback: bool, left: nat)
    ensures IsBounded(Attempts(feed, at, hasFallback, left), left)
    decreases left
  {
    var a := AttemptAt(feed, at, hasFallback);
    AttemptIsBounded(feed, at, hasFallback);
    hide AttemptAt, IsAccepted, Posts, Slept;
    if left == 0 || a.outcome.Crashed? || (a.outcome.Message? && a.outcome.json.Some?) {
      FirstAttempt(a, []);
      NoAttempts();
      assert [a] + [] == [a];
    } else {
      hide IsBounded, IsBoundedChat;
      var left' := if a.outcome.Failed? then 0 else left - 1;
      var rest := Attempts(feed, at + |a.posts|, hasFallback, left');
      AttemptsAreBounded(feed, at + |a.posts|, hasFallback, left');
      ThenMoreAttempts(a, rest, left, left');
    }
  }

  lemma FirstAttempt(a: Attempt, rest: seq<Attempt>)
    ensures Posts([a] + rest) == a.posts + Posts(rest) && Slept([a] + rest) == a.slept + Slept(rest)
  {
    assert ([a] + rest)[1..] == rest;
  }

  /** `structured_output` makes at most 3 chats and 24 posts and sleeps at most 26 seconds a ladder; only replies that
      hold no JSON are followed by another post, and an object is returned exactly when the last reply holds it. */
  lemma StructuredOutputIsBounded(feed: nat -> Reply, at: nat, hasFallback: bool, attempts: seq<Attempt>)
    requires attempts == Attempts(feed, at, hasFallback, 2)
    ensures var p := Posts(attempts);
      && |attempts| <= 3 && 1 <= |p| <= 24 && Slept(attempts) <= 6 * 26
      && (forall i :: 0 <= i < |p| - 1 && IsAccepted(p[i].reply, false) ==> p[i].reply.body.Unparsed?)
      && (forall v :: AnswerOf(attempts) == Json(v) <==> IsAccepted(Last(p), false) && Last(p).body == Parsed(v))
  {
    hide Attempts, Posts, Slept, IsAccepted;
    AttemptsAreBounded(feed, at, hasFallback, 2);
    assert forall v :: AnswerOf(attempts) == Json(v) <==> Outcome.Message(Some(v)) == attempts[|attempts| - 1].outcome;
  }
}
