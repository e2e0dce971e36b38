/**
 The resolution chain `expand_short_url` (app.py:21-42). A URL that is not a
 short link comes back unchanged and no strategy runs. Otherwise the four
 strategies run in their fixed order; the first whose result is a non-empty
 string different from the input wins and the later ones are not run; a
 strategy that raises is logged and skipped; when all four fail the input
 comes back.

 The strategies' network traffic is not modelled: each strategy is its name
 plus the outcome its call produces for this URL.
 */
module Resolution {
  import opened Wrappers
  import opened ShortLink
  import Scrape

  /** What calling one strategy produced: it raised an exception with a
      message, or it returned a value (`None` included). */
  datatype Outcome = Raised(message: string) | Returned(value: Option<string>)

  /** One entry of the `methods` list: the function's `__name__` and its outcome. */
  datatype Strategy = Strategy(name: string, outcome: Outcome)

  /** `expanded and expanded != short_url`: a non-empty string other than the input. */
  predicate Accepted(o: Outcome, url: string) {
    o.Returned? && o.value.Some? && o.value.value != "" && o.value.value != url
  }

  /** The index of the first strategy whose outcome is accepted, or `|ss|`. */
  function FirstAccepted(url: string, ss: seq<Strategy>): (k: nat)
    ensures k <= |ss|
    ensures forall j :: 0 <= j < k ==> !Accepted(ss[j].outcome, url)
    ensures k < |ss| ==> Accepted(ss[k].outcome, url)
  {
    if ss == [] then 0
    else if Accepted(ss[0].outcome, url) then 0
    else 1 + FirstAccepted(url, ss[1..])
  }

  /** How many strategies `expand_short_url` calls. */
  function Invoked(url: string, ss: seq<Strategy>): (n: nat)
    ensures n <= |ss|
    ensures n == 0 <==> !IsShortUrl(url) || ss == []
  {
    if !IsShortUrl(url) then 0
    else
      var k := FirstAccepted(url, ss);
      if k < |ss| then k + 1 else |ss|
  }

  /** What `expand_short_url` returns. */
  function Expand(url: string, ss: seq<Strategy>): (r: string)
    ensures r != url ==> IsShortUrl(url) && r != ""
  {
    if !IsShortUrl(url) then url
    else
      var k := FirstAccepted(url, ss);
      if k < |ss| then ss[k].outcome.value.value else url
  }

  /** The `st.write` line for a strategy that raised. */
  function LogLine(s: Strategy): string
    requires s.outcome.Raised?
  {
    "Method " + s.name + " failed: " + s.outcome.message
  }

  /** The lines written while calling the strategies `ss` in order. */
  function FailureLog(ss: seq<Strategy>): (log: seq<string>)
    ensures |log| <= |ss|
  {
    if ss == [] then []
    else
      var last := ss[|ss| - 1];
      FailureLog(ss[..|ss| - 1]) + (if last.outcome.Raised? then [LogLine(last)] else [])
  }

  /** `expand_short_url`, returning also how many strategies it called and the
      lines it logged. */
  method ExpandShortUrl(url: string, strategies: seq<Strategy>) returns (expanded: string, invoked: nat, log: seq<string>)
    ensures expanded == Expand(url, strategies)
    ensures invoked == Invoked(url, strategies)
    ensures log == FailureLog(strategies[..invoked])
  {
    if !IsShortUrl(url) {
      return url, 0, [];
    }
    log := [];
    var i := 0;
    while i < |strategies|
      invariant 0 <= i <= |strategies|
      invariant forall j :: 0 <= j < i ==> !Accepted(strategies[j].outcome, url)
      invariant log == FailureLog(strategies[..i])
    {
      var s := strategies[i];
      assert strategies[..i + 1][..i] == strategies[..i];
      match s.outcome {
        case Raised(_) =>
          log := log + [LogLine(s)];
        case Returned(value) =>
          if value.Some? && value.value != "" && value.value != url {
            return value.value, i + 1, log;
          }
      }
      i := i + 1;
    }
    assert strategies[..i] == strategies;
    return url, |strategies|, log;
  }

  // ---------------------------------------------------------------------------
  // Properties of the chain

  /** A URL that is not a short link is returned unchanged and nothing is called. */
  lemma NotShortUnchanged(url: string, ss: seq<Strategy>)
    requires !IsShortUrl(url)
    ensures Expand(url, ss) == url && Invoked(url, ss) == 0
  {
  }

  /** For a short link: the result differs from the input exactly when some
      strategy's outcome is accepted; then it is the first accepted outcome's
      value, that strategy is the last one called, and every earlier one failed. */
  lemma FirstSuccessWins(url: string, ss: seq<Strategy>)
    requires IsShortUrl(url)
    ensures Expand(url, ss) != url <==> exists k :: 0 <= k < |ss| && Accepted(ss[k].outcome, url)
    ensures Expand(url, ss) != url ==>
              var k := Invoked(url, ss) - 1;
              && 0 <= k < |ss|
              && Accepted(ss[k].outcome, url)
              && ss[k].outcome == Returned(Some(Expand(url, ss)))
              && forall j :: 0 <= j < k ==> !Accepted(ss[j].outcome, url)
  {
  }

  /** When every strategy fails the input comes back, after all of them were called. */
  lemma ExhaustedFallsBack(url: string, ss: seq<Strategy>)
    requires IsShortUrl(url)
    requires forall k :: 0 <= k < |ss| ==> !Accepted(ss[k].outcome, url)
    ensures Expand(url, ss) == url && Invoked(url, ss) == |ss|
  {
  }

  /** The result is the input or the value some called strategy returned. */
  lemma ResultIsInputOrReturned(url: string, ss: seq<Strategy>)
    ensures Invoked(url, ss) <= |ss|
    ensures || Expand(url, ss) == url
            || exists k :: 0 <= k < Invoked(url, ss) && ss[k].outcome == Returned(Some(Expand(url, ss)))
  {
    if IsShortUrl(url) && Expand(url, ss) != url {
      FirstSuccessWins(url, ss);
    }
  }

  /** Strategies after the last one called make no difference to the result:
      they are never invoked. */
  lemma LaterStrategiesIrrelevant(url: string, ss: seq<Strategy>, ss': seq<Strategy>)
    requires |ss'| == |ss|
    requires ss'[..Invoked(url, ss)] == ss[..Invoked(url, ss)]
    ensures Expand(url, ss') == Expand(url, ss)
    ensures Invoked(url, ss') == Invoked(url, ss)
  {
    if IsShortUrl(url) {
      var k := FirstAccepted(url, ss);
      var n := Invoked(url, ss);
      forall j | 0 <= j < n ensures ss'[j] == ss[j] {
        assert ss'[..n][j] == ss[..n][j];
      }
      assert FirstAccepted(url, ss') == k;
    }
  }

  /** A strategy that raises is logged and the next one is tried. */
  lemma RaisedIsLogged(url: string, ss: seq<Strategy>, k: nat)
    requires IsShortUrl(url)
    requires k < Invoked(url, ss) && ss[k].outcome.Raised?
    ensures LogLine(ss[k]) in FailureLog(ss[..Invoked(url, ss)])
  {
    var n := Invoked(url, ss);
    LogHoldsRaised(ss[..n], k);
  }

  lemma {:induction false} LogHoldsRaised(ss: seq<Strategy>, k: nat)
    requires k < |ss| && ss[k].outcome.Raised?
    ensures LogLine(ss[k]) in FailureLog(ss)
  {
    var m := |ss| - 1;
    if k < m {
      LogHoldsRaised(ss[..m], k);
    }
  }

  // ---------------------------------------------------------------------------
  // The four strategies of app.py:26-31

  /** `expand_with_allorigins_proxy` once its fetch is abstracted: `page` is the
      proxied page's `contents`, or `None` when the request, its status check
      or its JSON decoding failed. It never raises, and what it returns is the
      scraped value, which holds no `"`. */
  function ProxyOutcome(page: Option<string>): (o: Outcome)
    ensures o.Returned?
    ensures o.value.Some? ==> page.Some? && forall k :: 0 <= k < |o.value.value| ==> o.value.value[k] != '"'
  {
    Returned(if page.Some? then Scrape.Scrape(page.value) else None)
  }

  /** The `methods` list of app.py:26-31, in its order, with each call's outcome. */
  function Strategies(redirect: Outcome, unshorten: Outcome, longurl: Outcome, proxy: Outcome): (ss: seq<Strategy>)
    ensures |ss| == 4
  {
    [ Strategy("expand_with_requests", redirect),
      Strategy("expand_with_unshorten_api", unshorten),
      Strategy("expand_with_longurl_api", longurl),
      Strategy("expand_with_allorigins_proxy", proxy) ]
  }

  /** With the first two strategies failing and the third succeeding, the
      chain returns the third one's result and never calls the fourth. */
  lemma ThirdStrategyWins(url: string, m: string, v: string, proxy: Outcome)
    requires IsShortUrl(url) && v != "" && v != url
    ensures var ss := Strategies(Returned(None), Raised(m), Returned(Some(v)), proxy);
            Expand(url, ss) == v && Invoked(url, ss) == 3
  {
    var ss := Strategies(Returned(None), Raised(m), Returned(Some(v)), proxy);
    assert Accepted(ss[2].outcome, url) && !Accepted(ss[0].outcome, url) && !Accepted(ss[1].outcome, url);
  }
}
