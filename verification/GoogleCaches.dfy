/** What the Google client serves from its two caches, and what it puts there. */
module GoogleCaches {
  import opened Wrappers
  import opened TtlCache

  datatype Creds = Creds(clientId: string, clientSecret: string, refreshToken: string)

  datatype TokenError = Incomplete | Unreachable | Refused | NoToken

  /** What the token endpoint answers; Issued may be empty. */
  datatype TokenReply = Issued(token: string) | Failed(error: TokenError)

  /** What fetching one source gives: None if there are no credentials for it or the fetch raised. */
  type Fetch = Option<string>

  datatype Overview = Overview(gsc: Option<string>, ga4: Option<string>)

  /** One use of the caches. tokenKey is derived from the client id and a digest of the refresh token.
      asked is the clock at the lookup, stored the clock at the store. */
  datatype Call =
    | AskToken(creds: Creds, tokenKey: string, reply: TokenReply, asked: real, stored: real)
    | AskOverview(gscProperty: string, gsc: Fetch, ga4Property: string, ga4: Fetch, force: bool,
                  asked: real, stored: real)
    | ClearAll

  datatype Answer = Token(result: Result<string, TokenError>) | Data(overview: Overview, cached: bool) | Done

  datatype Caches = Caches(tokens: Dict<string>, overviews: Dict<Overview>)

  predicate IsComplete(c: Creds) {
    c.clientId != "" && c.clientSecret != "" && c.refreshToken != ""
  }

  function Exchange(reply: TokenReply): Result<string, TokenError> {
    match reply
    case Issued(token) => if token == "" then Failure(NoToken) else Success(token)
    case Failed(error) => Failure(error)
  }

  function OverviewKey(gscProperty: string, ga4Property: string): string {
    gscProperty + "|" + ga4Property
  }

  /** A source without a property is not fetched. */
  function Collect(gscProperty: string, gsc: Fetch, ga4Property: string, ga4: Fetch): Overview {
    Overview(if gscProperty == "" then None else gsc, if ga4Property == "" then None else ga4)
  }

  predicate HasData(o: Overview) {
    o.gsc.Some? || o.ga4.Some?
  }

  /** The answer to a call, and what it stores in a cache. */
  function Serve(c: Caches, call: Call, tokenTtl: real, overviewTtl: real): (Caches, Answer) {
    match call
    case ClearAll => (Caches(Empty(), Empty()), Done)
    case AskToken(creds, key, reply, asked, stored) =>
      if !IsComplete(creds) then (c, Token(Failure(Incomplete))) else
      var hit := Lookup(c.tokens, key, asked);
      if hit.Some? then (c, Token(Success(hit.value))) else
      var r := Exchange(reply);
      (if r.Success? then c.(tokens := Put(c.tokens, key, r.value, tokenTtl, stored)) else c, Token(r))
    case AskOverview(gscProperty, gsc, ga4Property, ga4, force, asked, stored) =>
      var key := OverviewKey(gscProperty, ga4Property);
      var hit := if force then None else Lookup(c.overviews, key, asked);
      if hit.Some? then (c, Data(hit.value, true)) else
      var o := Collect(gscProperty, gsc, ga4Property, ga4);
      (if HasData(o) then c.(overviews := Put(c.overviews, key, o, overviewTtl, stored)) else c, Data(o, false))
  }

  class Google {
    const tokens: Cache<string>
    const overviews: Cache<Overview>
    const tokenTtl: real
    const overviewTtl: real

    ghost predicate Valid()
      reads this, tokens, overviews
    {
      WellFormed(tokens.View()) && WellFormed(overviews.View())
    }

    ghost function View(): Caches
      reads this, tokens, overviews
    {
      Caches(tokens.View(), overviews.View())
    }

    constructor (tokenTtl: real, overviewTtl: real)
      ensures Valid() && fresh(tokens) && fresh(overviews) && View() == Caches(Empty(), Empty())
      ensures this.tokenTtl == tokenTtl && this.overviewTtl == overviewTtl
    {
      this.tokenTtl, this.overviewTtl := tokenTtl, overviewTtl;
      tokens := new Cache<string>();
      overviews := new Cache<Overview>();
    }

    method CacheClear()
      requires Valid()
      modifies tokens, overviews
      ensures Valid() && View() == Serve(old(View()), ClearAll, tokenTtl, overviewTtl).0
    {
      tokens.Clear();
      overviews.Clear();
    }

    /** `get_access_token`; reply is what the endpoint would answer if it is asked. */
    method GetAccessToken(creds: Creds, tokenKey: string, reply: TokenReply, asked: real, stored: real)
      returns (r: Result<string, TokenError>)
      requires Valid()
      modifies tokens
      ensures Valid()
      ensures (View(), Token(r))
        == Serve(old(View()), AskToken(creds, tokenKey, reply, asked, stored), tokenTtl, overviewTtl)
    {
      if creds.clientId == "" || creds.clientSecret == "" || creds.refreshToken == "" {
        return Failure(Incomplete);
      }
      if tokenKey in tokens.entries && tokens.entries[tokenKey].expiry > asked {
        return Success(tokens.entries[tokenKey].value);
      }
      match reply {
        case Failed(error) => return Failure(error);
        case Issued(token) =>
          if token == "" {
            return Failure(NoToken);
          }
          tokens.CachePut(tokenKey, token, tokenTtl, stored);
          return Success(token);
      }
    }

    /** `get_project_google_data`. */
    method GetProjectGoogleData(gscProperty: string, gsc: Fetch, ga4Property: string, ga4: Fetch, force: bool,
                                asked: real, stored: real)
      returns (o: Overview, cached: bool)
      requires Valid()
      modifies overviews
      ensures Valid()
      ensures (View(), Data(o, cached))
        == Serve(old(View()), AskOverview(gscProperty, gsc, ga4Property, ga4, force, asked, stored),
                 tokenTtl, overviewTtl)
    {
      var key := OverviewKey(gscProperty, ga4Property);
      if !force {
        if key in overviews.entries && overviews.entries[key].expiry > asked {
          return overviews.entries[key].value, true;
        }
      }
      o, cached := Overview(None, None), false;
      if gscProperty != "" {
        o := o.(gsc := gsc);
      }
      if ga4Property != "" {
        o := o.(ga4 := ga4);
      }
      if o.gsc.Some? || o.ga4.Some? {
        overviews.CachePut(key, o, overviewTtl, stored);
      }
    }
  }

  // ----- whole runs -----

  function Run(calls: seq<Call>, tokenTtl: real, overviewTtl: real): Caches {
    if calls == [] then Caches(Empty(), Empty())
    else Serve(Run(calls[..|calls| - 1], tokenTtl, overviewTtl), calls[|calls| - 1], tokenTtl, overviewTtl).0
  }

  /** What a call does to the token cache: a store when Google issues a token, nothing on a failure or a hit. */
  function NewTokens(c: Caches, call: Call, ttl: real): seq<Event<string>> {
    match call
    case ClearAll => [Cleared]
    case AskOverview(_, _, _, _, _, _, _) => []
    case AskToken(creds, key, reply, asked, stored) =>
      if IsComplete(creds) && Lookup(c.tokens, key, asked).None? && Exchange(reply).Success?
      then [Stored(key, Exchange(reply).value, ttl, stored)] else []
  }

  /** What a call does to the overview cache: a store when a fetch was made and gave something. */
  function NewOverviews(c: Caches, call: Call, ttl: real): seq<Event<Overview>> {
    match call
    case ClearAll => [Cleared]
    case AskToken(_, _, _, _, _) => []
    case AskOverview(gscProperty, gsc, ga4Property, ga4, force, asked, stored) =>
      var key, o := OverviewKey(gscProperty, ga4Property), Collect(gscProperty, gsc, ga4Property, ga4);
      if (force || Lookup(c.overviews, key, asked).None?) && HasData(o) then [Stored(key, o, ttl, stored)] else []
  }

  function TokenEvents(calls: seq<Call>, tokenTtl: real, overviewTtl: real): seq<Event<string>> {
    if calls == [] then [] else
    var before := calls[..|calls| - 1];
    TokenEvents(before, tokenTtl, overviewTtl)
      + NewTokens(Run(before, tokenTtl, overviewTtl), calls[|calls| - 1], tokenTtl)
  }

  function OverviewEvents(calls: seq<Call>, tokenTtl: real, overviewTtl: real): seq<Event<Overview>> {
    if calls == [] then [] else
    var before := calls[..|calls| - 1];
    OverviewEvents(before, tokenTtl, overviewTtl)
    + NewOverviews(Run(before, tokenTtl, overviewTtl), calls[|calls| - 1], overviewTtl)
  }

  lemma OneCall(c: Caches, ts: seq<Event<string>>, os: seq<Event<Overview>>, call: Call,
                tokenTtl: real, overviewTtl: real)
    requires c == Caches(After(ts), After(os))
    ensures Serve(c, call, tokenTtl, overviewTtl).0
      == Caches(After(ts + NewTokens(c, call, tokenTtl)), After(os + NewOverviews(c, call, overviewTtl)))
  {
    hide After, Put, Lookup;
    AfterMore(ts, NewTokens(c, call, tokenTtl));
    AfterMore(os, NewOverviews(c, call, overviewTtl));
  }

  lemma {:induction false} CachesFollowEvents(calls: seq<Call>, tokenTtl: real, overviewTtl: real)
    ensures Run(calls, tokenTtl, overviewTtl)
      == Caches(After(TokenEvents(calls, tokenTtl, overviewTtl)), After(OverviewEvents(calls, tokenTtl, overviewTtl)))
  {
    hide After, Serve, NewTokens, NewOverviews;
    if calls == [] {
      EmptyHistories();
    } else {
      var before := calls[..|calls| - 1];
      CachesFollowEvents(before, tokenTtl, overviewTtl);
      OneCall(Run(before, tokenTtl, overviewTtl), TokenEvents(before, tokenTtl, overviewTtl),
              OverviewEvents(before, tokenTtl, overviewTtl), calls[|calls| - 1], tokenTtl, overviewTtl);
    }
  }

  lemma EmptyHistories()
    ensures After<string>([]) == Empty<string>() && After<Overview>([]) == Empty<Overview>()
  {
  }

  /** Every overview that a run stores holds data from at least one source. */
  lemma {:induction false} StoredOverviewsHaveData(calls: seq<Call>, tokenTtl: real, overviewTtl: real, key: string)
    ensures var e := LastStored(OverviewEvents(calls, tokenTtl, overviewTtl), key);
      e.Some? ==> e.value.Stored? && HasData(e.value.value)
  {
    if calls != [] {
      hide Lookup, Collect, OverviewKey;
      var before := calls[..|calls| - 1];
      StoredOverviewsHaveData(before, tokenTtl, overviewTtl, key);
      var os, all := OverviewEvents(before, tokenTtl, overviewTtl), OverviewEvents(calls, tokenTtl, overviewTtl);
      if |all| > |os| {
        assert all[..|all| - 1] == os;
      } else {
        assert all == os;
      }
    }
  }

  /** In any run: an overview served from the cache is the one most recently stored under its key since the caches were
      last cleared, is younger than its time to live, and is never a total failure; a forced call is never served so. */
  lemma CachedOverviewIsFreshData(calls: seq<Call>, call: Call, tokenTtl: real, overviewTtl: real)
    requires call.AskOverview?
    ensures var a := Serve(Run(calls, tokenTtl, overviewTtl), call, tokenTtl, overviewTtl).1;
      a.Data? && (a.cached ==>
        var key := OverviewKey(call.gscProperty, call.ga4Property);
        var e := LastStored(OverviewEvents(calls, tokenTtl, overviewTtl), key);
        !call.force && e.Some? && e.value.Stored? && a.overview == e.value.value
        && call.asked - e.value.at < e.value.ttl && HasData(a.overview))
  {
    hide After, LastStored, OverviewKey, Run, OverviewEvents, TokenEvents;
    var key := OverviewKey(call.gscProperty, call.ga4Property);
    CachesFollowEvents(calls, tokenTtl, overviewTtl);
    HitIsLastStored(OverviewEvents(calls, tokenTtl, overviewTtl), key, call.asked);
    StoredOverviewsHaveData(calls, tokenTtl, overviewTtl, key);
  }

  /** In any run a token is either issued by Google in this call, or the one last issued under its key, less than its
      time to live ago and not cleared since. */
  lemma TokenIsIssued(calls: seq<Call>, call: Call, tokenTtl: real, overviewTtl: real)
    requires call.AskToken?
    ensures var a := Serve(Run(calls, tokenTtl, overviewTtl), call, tokenTtl, overviewTtl).1;
      a.Token? && (a.result.Success? ==>
        var e := LastStored(TokenEvents(calls, tokenTtl, overviewTtl), call.tokenKey);
        a.result == Exchange(call.reply)
        || (e.Some? && e.value.Stored? && a.result.value == e.value.value && call.asked - e.value.at < e.value.ttl))
  {
    hide After, LastStored, Run, OverviewEvents, TokenEvents;
    CachesFollowEvents(calls, tokenTtl, overviewTtl);
    HitIsLastStored(TokenEvents(calls, tokenTtl, overviewTtl), call.tokenKey, call.asked);
  }

  /** The bar is read at another place: h is g, a bar and more, and that more is the start of a. */
  predicate IsShifted(g: string, a: string, h: string, b: string) {
    g + "|" <= h && a == h[|g| + 1..] + "|" + b
  }

  /** Two pairs of properties share a cache key if and only if they are equal or one is the other with the bar
      shifted; so never when no Search Console property contains a bar. */
  lemma KeysTellPropertiesApart(g: string, a: string, h: string, b: string)
    ensures OverviewKey(g, a) == OverviewKey(h, b)
      <==> (g == h && a == b) || IsShifted(g, a, h, b) || IsShifted(h, b, g, a)
    ensures '|' !in g && '|' !in h ==> !IsShifted(g, a, h, b) && !IsShifted(h, b, g, a)
  {
    var x, y := OverviewKey(g, a), OverviewKey(h, b);
    assert x[..|g|] == g && x[|g|] == '|' && x[|g| + 1..] == a;
    assert y[..|h|] == h && y[|h|] == '|' && y[|h| + 1..] == b;
    if IsShifted(g, a, h, b) {
      ShiftedKeys(g, a, h, b);
    }
    if IsShifted(h, b, g, a) {
      ShiftedKeys(h, b, g, a);
    }
    if x == y && |g| < |h| {
      SplitLater(g, a, h, b);
    } else if x == y && |h| < |g| {
      SplitLater(h, b, g, a);
    }
  }

  lemma ShiftedKeys(g: string, a: string, h: string, b: string)
    requires IsShifted(g, a, h, b)
    ensures OverviewKey(g, a) == OverviewKey(h, b) && '|' in h
  {
    assert h == g + "|" + h[|g| + 1..];
    assert h[|g|] == '|';
  }

  lemma SplitLater(g: string, a: string, h: string, b: string)
    requires OverviewKey(g, a) == OverviewKey(h, b) && |g| < |h|
    ensures IsShifted(g, a, h, b)
  {
    var x, n := OverviewKey(g, a), |g| + 1;
    assert x == h + ("|" + b) && x[..n] == g + "|" && x[n..] == a;
    assert x[..n] == h[..n] && x[n..] == h[n..] + ("|" + b);
    assert h[n..] + ("|" + b) == h[n..] + "|" + b;
  }

  /** A bar in the Search Console property of one pair and in the Analytics property of the other: they share a key. */
  lemma KeysCollide(x: string, y: string, z: string)
    ensures OverviewKey(x, y + "|" + z) == OverviewKey(x + "|" + y, z) && (x, y + "|" + z) != (x + "|" + y, z)
  {
    assert |x| < |x + "|" + y|;
  }
}
