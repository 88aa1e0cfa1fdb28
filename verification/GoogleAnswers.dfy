/** What one call of the Google client answers, and when it asks Google at all. */
module GoogleAnswers {
  import opened GoogleCaches
  import opened TtlCache
  import opened Wrappers

  /** Incomplete credentials are refused. A live entry is answered whatever Google would say, and a call for it changes
      nothing. Otherwise Google's own answer is given: a token, which is served from then on until its time to live is
      over, or an error, which changes nothing. */
  lemma TokenAnswers(c: Caches, call: Call, tokenTtl: real, overviewTtl: real, now: real)
    requires call.AskToken?
    ensures var (d, a) := Serve(c, call, tokenTtl, overviewTtl);
      var complete := call.creds.clientId != "" && call.creds.clientSecret != "" && call.creds.refreshToken != "";
      var live := call.tokenKey in c.tokens.entries && call.asked < c.tokens.entries[call.tokenKey].expiry;
      && d.overviews == c.overviews
      && (!complete ==> d == c && a == Token(Failure(Incomplete)))
      && (complete && live ==> d == c && a == Token(Success(c.tokens.entries[call.tokenKey].value)))
      && (complete && !live ==>
            match call.reply
            case Failed(error) => d == c && a == Token(Failure(error))
            case Issued(token) =>
              if token == "" then d == c && a == Token(Failure(NoToken))
              else a == Token(Success(token))
                   && Lookup(d.tokens, call.tokenKey, now)
                      == if now - call.stored < tokenTtl then Some(token) else None)
  {
    hide Evicted;
  }

  /** A live overview is answered unless the call is forced, whatever Google would say, and changes nothing. Otherwise
      each source with a property is asked; what they give is the answer, and it is served from then on until its time
      to live is over, unless both gave nothing: then nothing changes. */
  lemma OverviewAnswers(c: Caches, call: Call, tokenTtl: real, overviewTtl: real, now: real)
    requires call.AskOverview?
    ensures var (d, a) := Serve(c, call, tokenTtl, overviewTtl);
      var key := call.gscProperty + "|" + call.ga4Property;
      var live := key in c.overviews.entries && call.asked < c.overviews.entries[key].expiry;
      var gsc := if call.gscProperty != "" then call.gsc else None;
      var ga4 := if call.ga4Property != "" then call.ga4 else None;
      && d.tokens == c.tokens
      && (live && !call.force ==> d == c && a == Data(c.overviews.entries[key].value, true))
      && (!live || call.force ==> a == Data(Overview(gsc, ga4), false))
      && ((!live || call.force) && gsc == None && ga4 == None ==> d == c)
      && ((!live || call.force) && (gsc != None || ga4 != None) ==>
            Lookup(d.overviews, key, now)
            == if now - call.stored < overviewTtl then Some(Overview(gsc, ga4)) else None)
  {
    hide Evicted;
  }
}
