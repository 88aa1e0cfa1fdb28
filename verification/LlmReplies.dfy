/** What a reply leads to, told on its status and body. */
module LlmReplies {
  import opened LlmRetry
  import opened Wrappers

  /** A reply a ladder stops at: an error that is not worth another try, or a good one; a stream is good below 400
      whatever its body looks like. */
  predicate StopsAt(r: Reply, stream: bool) {
    && r.Response?
    && ((r.status < 400 && stream) || (r.status != 403 && r.status != 404 && r.status != 429 && !r.challenged))
  }

  predicate IsGood(r: Reply, stream: bool) {
    r.Response? && r.status < 400 && (stream || !r.challenged)
  }

  /** A ladder goes on, up to its fourth post, exactly until a reply to stop at. */
  lemma LadderStops(feed: nat -> Reply, at: nat, target: Target, stream: bool)
    ensures var l := Ladder(feed, at, 4, target, stream);
      && 1 <= |l| <= 4
      && (forall i :: 0 <= i < |l| ==> l[i] == Post(target, feed(at + i)))
      && (forall i :: 0 <= i < |l| - 1 ==> !StopsAt(l[i].reply, stream))
      && (|l| < 4 ==> StopsAt(Last(l), stream))
  {
    hide Ladder;
    LadderShape(feed, at, 4, target, stream);
  }

  /** The seconds before the first, second, third and fourth post. */
  lemma SecondsSlept(posts: nat)
    requires posts <= 4
    ensures Backoff(posts) == if posts <= 1 then 0 else if posts == 2 then 3 else if posts == 3 then 11 else 26
  {
    assert Backoff(1) == 0 && Backoff(2) == Backoff(1) + 3 && Backoff(3) == Backoff(2) + 8;
    assert Backoff(4) == Backoff(3) + 15;
  }

  /** The status an error carries: that of the last post that was answered at all. */
  lemma {:induction false} StatusIsLast(posts: seq<Post>)
    ensures LastStatus(posts).None? <==> forall i :: 0 <= i < |posts| ==> posts[i].reply.Raised?
    ensures LastStatus(posts).Some? ==>
      exists i :: 0 <= i < |posts| && posts[i].reply.Response? && LastStatus(posts) == Some(posts[i].reply.status)
                  && forall j :: i < j < |posts| ==> posts[j].reply.Raised?
  {
    if posts != [] {
      var n := |posts| - 1;
      StatusIsLast(posts[..n]);
      if posts[n].reply.Raised? && LastStatus(posts[..n]).Some? {
        var i :| 0 <= i < n && posts[..n][i].reply.Response?
                 && LastStatus(posts[..n]) == Some(posts[..n][i].reply.status)
                 && forall j :: i < j < n ==> posts[..n][j].reply.Raised?;
        assert posts[i] == posts[..n][i];
        assert forall j :: i < j < n ==> posts[j] == posts[..n][j];
      }
    }
  }

  /** A chat gives the reply of the first ladder that ends well, or else says how each ladder ended. */
  lemma ChatResult(feed: nat -> Reply, at: nat, hasFallback: bool, stream: bool)
    ensures var p := Ladder(feed, at, 4, Primary, stream);
      var q := Ladder(feed, at + |p|, 4, Fallback, stream);
      && p != [] && q != []
      && ChatPosts(feed, at, hasFallback, stream) == (if IsGood(Last(p), stream) || !hasFallback then p else p + q)
      && PostResult(feed, at, hasFallback, stream)
         == if IsGood(Last(p), stream) then Success(Last(p))
            else if !hasFallback then Failure(Ended(LastStatus(p)))
            else if IsGood(Last(q), stream) then Success(Last(q))
            else Failure(BothEnded(LastStatus(p), LastStatus(q)))
  {
    hide Ladder;
    LadderStops(feed, at, Primary, stream);
    LadderStops(feed, at + |Ladder(feed, at, 4, Primary, stream)|, Fallback, stream);
  }

  /** How a chat ends: an answer that is no message at all raises something other than an LLMError. */
  lemma ChatEnds(feed: nat -> Reply, at: nat, hasFallback: bool)
    ensures var a := AttemptAt(feed, at, hasFallback);
      var r := PostResult(feed, at, hasFallback, false);
      && (forall error :: a.outcome == Failed(error) <==> r == Failure(error))
      && (a.outcome == Crashed <==> r.Success? && r.value.Response? && r.value.body == NotAMessage)
      && (a.outcome == Message(None) <==> r.Success? && r.value.Response? && r.value.body == Unparsed)
      && (forall v :: a.outcome == Message(Some(v)) <==> r.Success? && r.value.Response? && r.value.body == Parsed(v))
  {
    hide ChatPosts, ChatBackoff;
    var k := ChatShape(feed, at, hasFallback, false);
    hide PostResult;
  }

  /** `structured_output`, chat by chat: an error in JSON mode goes straight to the plain chat and is told with its
      error; an answer without JSON is asked for again once in JSON mode; a message that is none ends it. */
  lemma ChatsOfAnAnswer(feed: nat -> Reply, at: nat, hasFallback: bool, a: Attempt, b: Attempt, c: Attempt)
    requires a == AttemptAt(feed, at, hasFallback) && b == AttemptAt(feed, at + |a.posts|, hasFallback)
    requires c == AttemptAt(feed, at + |a.posts| + |b.posts|, hasFallback)
    ensures var chats := Attempts(feed, at, hasFallback, 2);
      match a.outcome
      case Crashed => chats == [a] && AnswerOf(chats) == Crash
      case Message(Some(v)) => chats == [a] && AnswerOf(chats) == Json(v)
      case Failed(error) => chats == [a, b] && AnswerOf(chats) == LastAnswer(Some(error), b.outcome)
      case Message(None) =>
        match b.outcome
        case Crashed => chats == [a, b] && AnswerOf(chats) == Crash
        case Message(Some(v)) => chats == [a, b] && AnswerOf(chats) == Json(v)
        case Failed(error) => chats == [a, b, c] && AnswerOf(chats) == LastAnswer(Some(error), c.outcome)
        case Message(None) => chats == [a, b, c] && AnswerOf(chats) == LastAnswer(None, c.outcome)
  {
    hide AttemptAt, Attempts, AnswerOf;
    OneMoreChat(feed, at, hasFallback, 2, a);
    OneMoreChat(feed, at + |a.posts|, hasFallback, 1, b);
    LastChat(feed, at + |a.posts|, hasFallback, b);
    LastChat(feed, at + |a.posts| + |b.posts|, hasFallback, c);
    assert [a] + [b] == [a, b] && [a] + ([b] + [c]) == [a, b, c];
    AnswersOf(a, b, c);
  }

  lemma OneMoreChat(feed: nat -> Reply, at: nat, hasFallback: bool, left: nat, a: Attempt)
    requires left > 0 && a == AttemptAt(feed, at, hasFallback)
    ensures var chats, rest := Attempts(feed, at, hasFallback, left), at + |a.posts|;
      && (a.outcome.Crashed? || (a.outcome.Message? && a.outcome.json.Some?) ==> chats == [a])
      && (a.outcome.Failed? ==> chats == [a] + Attempts(feed, rest, hasFallback, 0))
      && (a.outcome == Message(None) ==> chats == [a] + Attempts(feed, rest, hasFallback, left - 1))
  {
    hide AttemptAt;
  }

  lemma LastChat(feed: nat -> Reply, at: nat, hasFallback: bool, a: Attempt)
    requires a == AttemptAt(feed, at, hasFallback)
    ensures Attempts(feed, at, hasFallback, 0) == [a]
  {
    hide AttemptAt;
  }

  lemma AnswersOf(a: Attempt, b: Attempt, c: Attempt)
    ensures AnswerOf([a]) == LastAnswer(None, a.outcome)
    ensures AnswerOf([a, b]) == LastAnswer(ErrorOf(a), b.outcome)
    ensures AnswerOf([a, b, c]) == LastAnswer(ErrorOf(b), c.outcome)
  {
    assert [a, b][..1] == [a] && [a, b, c][..2] == [a, b] && [a][..0] == [];
  }

  function ErrorOf(a: Attempt): Option<LLMError> {
    if a.outcome.Failed? then Some(a.outcome.error) else None
  }

  /** The answer of the plain chat. */
  function LastAnswer(jsonMode: Option<LLMError>, o: Outcome): Answer {
    match o
    case Crashed => Crash
    case Message(Some(v)) => Json(v)
    case Message(None) => NoJson
    case Failed(error) => ChatFailed(jsonMode, error)
  }

  /** Either setting is enough for there to be a fallback. */
  lemma FallbackIsConfigured(p: Provider)
    ensures !p.HasFallback() <==> p.fallbackBase == "" && p.fallbackModel == ""
  {
  }
}
