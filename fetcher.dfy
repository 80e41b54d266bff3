/** `getTweetsData`: acquire the bearer token once, fetch the first page of
    search results, then follow `next_results` while the remembered date of
    the last tweet is after the cutoff. */
module Fetcher {
  import opened Tweets
  import opened Upstream

  /** The last tweet of `tweets` exists and is after the cutoff. */
  predicate LastAfter(tweets: seq<Tweet>, startHour: Timestamp)
  {
    |tweets| > 0 && tweets[|tweets| - 1].createdAt > startHour
  }

  /** The variables of the `while` loop: the accumulated tweets, the date the
      loop test reads and the cursor of the next page. */
  datatype LoopState = LoopState(tweets: seq<Tweet>, lastItemDate: Timestamp, nextPage: string)

  /** What a run of the loop returns and the search requests it made, in order. */
  datatype Outcome = Outcome(result: Result<seq<Tweet>>, requests: seq<Request>)

  /** What one call of `getTweetsData` returns, the token held afterwards,
      whether it asked the token endpoint, and its search requests in order. */
  datatype Run = Run(result: Result<seq<Tweet>>, token: Option<Token>, tokenRequested: bool, requests: seq<Request>)

  /** The statuses of the replies to `log`, joined in request order. */
  function Fetched(search: Request -> Reply<Page>, log: seq<Request>): seq<Tweet>
  {
    if log == [] then [] else search(log[0]).body.statuses + Fetched(search, log[1..])
  }

  /** Every request of `log` got status 200. */
  predicate AllAccepted(search: Request -> Reply<Page>, log: seq<Request>)
  {
    forall i :: 0 <= i < |log| ==> search(log[i]).statusCode == 200
  }

  /** `log` starts at the page named by `cursor`, and each later request asks
      for the page that the previous reply's `next_results` names. */
  predicate FollowsCursors(search: Request -> Reply<Page>, cursor: string, log: seq<Request>)
    decreases |log|
  {
    log == [] ||
    (log[0].path == SearchPath(cursor) &&
     FollowsCursors(search, search(log[0]).body.nextResults, log[1..]))
  }

  /** The next page's request and the state after one iteration. */
  function NextRequest(bearer: Token, s: LoopState): Request
  {
    Request(bearer, SearchPath(s.nextPage))
  }

  function NextState(search: Request -> Reply<Page>, bearer: Token, s: LoopState): LoopState
    requires |s.tweets| > 0
  {
    var page := search(NextRequest(bearer, s)).body;
    LoopState(s.tweets + page.statuses, s.tweets[|s.tweets| - 1].createdAt, page.nextResults)
  }

  /** Every request of `log` carries `bearer` in its `Authorization` header. */
  predicate SignedWith(log: seq<Request>, bearer: Token)
  {
    forall i :: 0 <= i < |log| ==> log[i].auth == bearer
  }

  /** The `while` loop of `getTweetsData`. Each iteration first re-reads the
      date of the last tweet accumulated so far, and only then fetches and
      appends the next page, so the test always sees the date from before the
      latest append. `fuel` bounds the number of iterations. */
  function PageLoop(search: Request -> Reply<Page>, bearer: Token, startHour: Timestamp,
                    s: LoopState, fuel: nat): Outcome
    requires |s.tweets| > 0
    decreases fuel
  {
    if s.lastItemDate <= startHour then Outcome(Ok(s.tweets), [])
    else if fuel == 0 then Outcome(Err(PageLimit), [])
    else
      var request := NextRequest(bearer, s);
      var reply := Receive(search(request));
      if reply.Err? then Outcome(Err(reply.error), [request])
      else
        var rest := PageLoop(search, bearer, startHour, NextState(search, bearer, s), fuel - 1);
        Outcome(rest.result, [request] + rest.requests)
  }

  /** The loop only ever appends to the accumulated tweets, never fails for
      want of a last item, makes at most `fuel` requests (exactly `fuel` when
      the bound stops it) and signs every request with the same token. */
  lemma {:induction false} PageLoopShape(search: Request -> Reply<Page>, bearer: Token, startHour: Timestamp,
                                         s: LoopState, fuel: nat)
    requires |s.tweets| > 0
    ensures var o := PageLoop(search, bearer, startHour, s, fuel);
      && (o.result.Ok? ==> s.tweets <= o.result.value)
      && o.result != Err(NoLastItem)
      && |o.requests| <= fuel
      && (o.result == Err(PageLimit) ==> |o.requests| == fuel)
      && SignedWith(o.requests, bearer)
    decreases fuel
  {
    if s.lastItemDate > startHour && fuel > 0 && search(NextRequest(bearer, s)).statusCode == 200 {
      var next := NextState(search, bearer, s);
      PageLoopStep(search, bearer, startHour, s, fuel);
      PageLoopShape(search, bearer, startHour, next, fuel - 1);
    }
  }

  /** One call of `getTweetsData` with `held` as the module's token; at most
      `maxPages` pages are requested after the first. */
  function TweetsData(service: Service, held: Option<Token>, startHour: Timestamp, maxPages: nat): (run: Run)
    ensures run.tokenRequested <==> held.None?
    ensures held.Some? ==> run.token == held
    ensures held.None? && service.tokenReply.statusCode == 200 ==> run.token == Some(service.tokenReply.body)
    ensures run.token.None? <==> held.None? && service.tokenReply.statusCode != 200
    ensures run.token.None? ==> run.requests == [] && run.result.Err?
    ensures run.token.Some? ==> SignedWith(run.requests, run.token.value)
    ensures |run.requests| <= 1 + maxPages
    ensures run.result == Err(PageLimit) ==> |run.requests| == 1 + maxPages
  {
    var acquired := if held.Some? then Ok(held.value) else Receive(service.tokenReply);
    if acquired.Err? then Run(Err(acquired.error), None, true, [])
    else
      var bearer := acquired.value;
      var request := Request(bearer, SearchPath(""));
      var first := Receive(service.search(request));
      if first.Err? then Run(Err(first.error), Some(bearer), held.None?, [request])
      else if |first.value.statuses| == 0 then Run(Err(NoLastItem), Some(bearer), held.None?, [request])
      else
        var tweets := first.value.statuses;
        var start := LoopState(tweets, tweets[|tweets| - 1].createdAt, first.value.nextResults);
        var o := PageLoop(service.search, bearer, startHour, start, maxPages);
        PageLoopShape(service.search, bearer, startHour, start, maxPages);
        Run(o.result, Some(bearer), held.None?, [request] + o.requests)
  }

  lemma FetchedCons(search: Request -> Reply<Page>, request: Request, log: seq<Request>, j: nat)
    requires 1 <= j <= |log| + 1
    ensures Fetched(search, ([request] + log)[..j]) == search(request).body.statuses + Fetched(search, log[..j - 1])
  {
    var l := ([request] + log)[..j];
    assert l[0] == request && l[1..] == log[..j - 1];
  }

  /** The loop stops at the first test that fails, where the test before
      iteration `k + 1` reads the tweets accumulated before iteration `k`
      appended its page: with `n` iterations, every test before them passed
      and the last date read, taken before the last page was appended, is not
      after the cutoff. */
  predicate StopsAsWritten(search: Request -> Reply<Page>, startHour: Timestamp,
                           tweets: seq<Tweet>, lastItemDate: Timestamp, log: seq<Request>)
  {
    && (|log| == 0 <==> lastItemDate <= startHour)
    && (|log| > 0 ==> !LastAfter(tweets + Fetched(search, log[..|log| - 1]), startHour))
    && (forall j :: 0 <= j < |log| - 1 ==> LastAfter(tweets + Fetched(search, log[..j]), startHour))
  }

  /** One iteration: the request for the next page, then either the error
      of its reply or the rest of the loop from the appended state. */
  lemma PageLoopStep(search: Request -> Reply<Page>, bearer: Token, startHour: Timestamp,
                     s: LoopState, fuel: nat)
    requires |s.tweets| > 0 && s.lastItemDate > startHour && fuel > 0
    ensures var reply := Receive(search(NextRequest(bearer, s)));
      var rest := PageLoop(search, bearer, startHour, NextState(search, bearer, s), fuel - 1);
      PageLoop(search, bearer, startHour, s, fuel) ==
        if reply.Err? then Outcome(Err(reply.error), [NextRequest(bearer, s)])
        else Outcome(rest.result, [NextRequest(bearer, s)] + rest.requests)
  {
  }

  /** Prepending an accepted request for the page `cursor` names keeps a
      log accepted and chained, and its pages joined in order. */
  lemma ConsFetches(search: Request -> Reply<Page>, tweets: seq<Tweet>, cursor: string,
                    request: Request, log: seq<Request>)
    requires search(request).statusCode == 200 && request.path == SearchPath(cursor)
    requires AllAccepted(search, log) && FollowsCursors(search, search(request).body.nextResults, log)
    ensures AllAccepted(search, [request] + log)
    ensures FollowsCursors(search, cursor, [request] + log)
    ensures (tweets + search(request).body.statuses) + Fetched(search, log) == tweets + Fetched(search, [request] + log)
  {
    var l := [request] + log;
    assert l[0] == request && l[1..] == log;
    forall i | 0 < i < |l| ensures search(l[i]).statusCode == 200 {
      assert l[i] == log[i - 1];
    }
  }

  /** The tests that passed before a stopped loop still pass, one position
      later, once the iteration from `s` is put in front of it. */
  lemma ConsTests(search: Request -> Reply<Page>, startHour: Timestamp,
                  tweets: seq<Tweet>, request: Request, log: seq<Request>)
    requires forall j :: 0 <= j < |log| - 1 ==>
      LastAfter(tweets + search(request).body.statuses + Fetched(search, log[..j]), startHour)
    ensures forall j :: 0 < j < |log| ==> LastAfter(tweets + Fetched(search, ([request] + log)[..j]), startHour)
  {
    var next := tweets + search(request).body.statuses;
    forall j | 0 < j < |log|
      ensures LastAfter(tweets + Fetched(search, ([request] + log)[..j]), startHour)
    {
      assert LastAfter(next + Fetched(search, log[..j - 1]), startHour);
      FetchedCons(search, request, log, j);
      assert tweets + Fetched(search, ([request] + log)[..j]) == next + Fetched(search, log[..j - 1]);
    }
  }

  /** The failing test of a stopped loop is still the failing one once the
      iteration from `s` is put in front of it. */
  lemma ConsLastTest(search: Request -> Reply<Page>, startHour: Timestamp,
                     tweets: seq<Tweet>, request: Request, log: seq<Request>)
    requires |log| > 0
    requires !LastAfter(tweets + search(request).body.statuses + Fetched(search, log[..|log| - 1]), startHour)
    ensures !LastAfter(tweets + Fetched(search, ([request] + log)[..|log|]), startHour)
  {
    FetchedCons(search, request, log, |log|);
    assert tweets + Fetched(search, ([request] + log)[..|log|])
      == tweets + search(request).body.statuses + Fetched(search, log[..|log| - 1]);
  }

  /** Prepending the iteration that moved the loop from `s` to the next
      state keeps the stopping condition. */
  lemma ConsStops(search: Request -> Reply<Page>, bearer: Token, startHour: Timestamp,
                  s: LoopState, log: seq<Request>)
    requires |s.tweets| > 0 && s.lastItemDate > startHour
    requires var next := NextState(search, bearer, s);
      StopsAsWritten(search, startHour, next.tweets, next.lastItemDate, log)
    ensures StopsAsWritten(search, startHour, s.tweets, s.lastItemDate, [NextRequest(bearer, s)] + log)
  {
    var request, n := NextRequest(bearer, s), NextState(search, bearer, s);
    assert n.tweets == s.tweets + search(request).body.statuses;
    assert n.lastItemDate == s.tweets[|s.tweets| - 1].createdAt;
    assert s.tweets + Fetched(search, ([request] + log)[..0]) == s.tweets;
    if |log| > 0 {
      assert LastAfter(s.tweets, startHour);
      ConsLastTest(search, startHour, s.tweets, request, log);
    }
    ConsTests(search, startHour, s.tweets, request, log);
  }

  /** A loop that returns has fetched the chain of pages its cursors name,
      each with status 200, and appended them in request order. */
  lemma {:induction false} PageLoopFetches(search: Request -> Reply<Page>, bearer: Token, startHour: Timestamp,
                                           s: LoopState, fuel: nat)
    requires |s.tweets| > 0
    ensures var o := PageLoop(search, bearer, startHour, s, fuel);
      o.result.Ok? ==>
        && o.result.value == s.tweets + Fetched(search, o.requests)
        && AllAccepted(search, o.requests)
        && FollowsCursors(search, s.nextPage, o.requests)
    decreases fuel
  {
    if s.lastItemDate <= startHour {
      assert s.tweets + Fetched(search, []) == s.tweets;
    } else if fuel > 0 && search(NextRequest(bearer, s)).statusCode == 200 {
      var next := NextState(search, bearer, s);
      PageLoopStep(search, bearer, startHour, s, fuel);
      PageLoopFetches(search, bearer, startHour, next, fuel - 1);
      var rest := PageLoop(search, bearer, startHour, next, fuel - 1);
      if rest.result.Ok? {
        ConsFetches(search, s.tweets, s.nextPage, NextRequest(bearer, s), rest.requests);
      }
    }
  }

  /** A loop that returns stopped exactly where its lagging test first failed. */
  lemma {:induction false} PageLoopStops(search: Request -> Reply<Page>, bearer: Token, startHour: Timestamp,
                                         s: LoopState, fuel: nat)
    requires |s.tweets| > 0
    ensures var o := PageLoop(search, bearer, startHour, s, fuel);
      o.result.Ok? ==> StopsAsWritten(search, startHour, s.tweets, s.lastItemDate, o.requests)
    decreases fuel
  {
    if s.lastItemDate <= startHour {
      assert PageLoop(search, bearer, startHour, s, fuel).requests == [];
    } else if fuel > 0 && search(NextRequest(bearer, s)).statusCode == 200 {
      var next := NextState(search, bearer, s);
      PageLoopStep(search, bearer, startHour, s, fuel);
      PageLoopStops(search, bearer, startHour, next, fuel - 1);
      var rest := PageLoop(search, bearer, startHour, next, fuel - 1);
      if rest.result.Ok? {
        ConsStops(search, bearer, startHour, s, rest.requests);
      }
    }
  }

  /** A loop rejected by the upstream stopped at a request whose reply had
      that status. */
  lemma {:induction false} PageLoopRejected(search: Request -> Reply<Page>, bearer: Token, startHour: Timestamp,
                                            s: LoopState, fuel: nat, code: int)
    requires |s.tweets| > 0
    requires PageLoop(search, bearer, startHour, s, fuel).result == Err(Rejected(code))
    ensures var log := PageLoop(search, bearer, startHour, s, fuel).requests;
      code != 200 && |log| > 0 && search(log[|log| - 1]).statusCode == code
    decreases fuel
  {
    var o := PageLoop(search, bearer, startHour, s, fuel);
    if s.lastItemDate > startHour && fuel > 0 {
      var request := NextRequest(bearer, s);
      PageLoopStep(search, bearer, startHour, s, fuel);
      if search(request).statusCode == 200 {
        var next := NextState(search, bearer, s);
        var rest := PageLoop(search, bearer, startHour, next, fuel - 1);
        assert o == Outcome(rest.result, [request] + rest.requests);
        PageLoopRejected(search, bearer, startHour, next, fuel - 1, code);
        assert o.requests[|o.requests| - 1] == rest.requests[|rest.requests| - 1];
      } else {
        assert o == Outcome(Err(Rejected(search(request).statusCode)), [request]);
      }
    }
  }

  /** Every request of `log` but the last got status 200. */
  predicate AcceptedBeforeLast(search: Request -> Reply<Page>, log: seq<Request>)
  {
    forall i :: 0 <= i < |log| - 1 ==> search(log[i]).statusCode == 200
  }

  /** The loop goes on only past accepted replies, and a reply with another
      status ends it, rejected with exactly that status. */
  lemma {:induction false} PageLoopRejectsAtLast(search: Request -> Reply<Page>, bearer: Token, startHour: Timestamp,
                                                 s: LoopState, fuel: nat)
    requires |s.tweets| > 0
    ensures var o := PageLoop(search, bearer, startHour, s, fuel);
      && AcceptedBeforeLast(search, o.requests)
      && (|o.requests| > 0 && search(o.requests[|o.requests| - 1]).statusCode != 200 ==>
            o.result == Err(Rejected(search(o.requests[|o.requests| - 1]).statusCode)))
    decreases fuel
  {
    var o := PageLoop(search, bearer, startHour, s, fuel);
    if s.lastItemDate > startHour && fuel > 0 {
      var request := NextRequest(bearer, s);
      PageLoopStep(search, bearer, startHour, s, fuel);
      if search(request).statusCode == 200 {
        var next := NextState(search, bearer, s);
        var rest := PageLoop(search, bearer, startHour, next, fuel - 1);
        assert o == Outcome(rest.result, [request] + rest.requests);
        PageLoopRejectsAtLast(search, bearer, startHour, next, fuel - 1);
        forall i | 0 <= i < |o.requests| - 1 ensures search(o.requests[i]).statusCode == 200 {
          if i > 0 {
            assert o.requests[i] == rest.requests[i - 1];
          }
        }
        if |rest.requests| > 0 {
          assert o.requests[|o.requests| - 1] == rest.requests[|rest.requests| - 1];
        }
      } else {
        assert o == Outcome(Err(Rejected(search(request).statusCode)), [request]);
      }
    } else {
      assert o.requests == [];
    }
  }

  /** The first request the loop makes, if any, is for the page its cursor names. */
  lemma PageLoopFirstRequest(search: Request -> Reply<Page>, bearer: Token, startHour: Timestamp,
                             s: LoopState, fuel: nat)
    requires |s.tweets| > 0
    ensures var o := PageLoop(search, bearer, startHour, s, fuel);
      |o.requests| > 0 ==> o.requests[0] == Request(bearer, SearchPath(s.nextPage))
  {
    if s.lastItemDate > startHour && fuel > 0 {
      PageLoopStep(search, bearer, startHour, s, fuel);
    }
  }

  /** A loop whose cursor is empty, and whose first-page reply is accepted,
      has no `next_results` and ends after the cutoff, asks for that same page
      again and again: the date it re-reads never reaches the cutoff, so only
      the bound on pages stops it. */
  lemma {:induction false} StuckOnFirstPage(search: Request -> Reply<Page>, bearer: Token, startHour: Timestamp,
                                            s: LoopState, fuel: nat)
    requires LastAfter(s.tweets, startHour) && s.lastItemDate > startHour && s.nextPage == ""
    requires var reply := search(Request(bearer, SearchPath("")));
      reply.statusCode == 200 && reply.body.nextResults == "" && LastAfter(reply.body.statuses, startHour)
    ensures PageLoop(search, bearer, startHour, s, fuel).result == Err(PageLimit)
    decreases fuel
  {
    if fuel > 0 {
      PageLoopStep(search, bearer, startHour, s, fuel);
      var page := search(Request(bearer, SearchPath(""))).body;
      var next := NextState(search, bearer, s);
      assert next == LoopState(s.tweets + page.statuses, s.tweets[|s.tweets| - 1].createdAt, "");
      assert next.tweets[|next.tweets| - 1] == page.statuses[|page.statuses| - 1];
      StuckOnFirstPage(search, bearer, startHour, next, fuel - 1);
    }
  }

  /** The bearer token one call of `getTweetsData` uses when it gets one. */
  function Bearer(service: Service, held: Option<Token>): Token
  {
    if held.Some? then held.value else service.tokenReply.body
  }

  /** The stopping condition of the loop, restated over the whole log of the
      call, whose first request fetched `first`. */
  lemma LiftStops(search: Request -> Reply<Page>, startHour: Timestamp, request: Request, log: seq<Request>)
    requires |search(request).body.statuses| > 0
    requires var first := search(request).body.statuses;
      StopsAsWritten(search, startHour, first, first[|first| - 1].createdAt, log)
    ensures var all := [request] + log;
      var n := |all|;
      && Fetched(search, all[..1]) == search(request).body.statuses
      && (n == 1 <==> !LastAfter(Fetched(search, all[..1]), startHour))
      && (n > 1 ==> n >= 3 && !LastAfter(Fetched(search, all[..n - 1]), startHour))
      && (forall j :: 1 <= j < n - 1 ==> LastAfter(Fetched(search, all[..j]), startHour))
  {
    var first, all := search(request).body.statuses, [request] + log;
    var n := |all|;
    FetchedCons(search, request, log, 1);
    assert first + Fetched(search, log[..0]) == first;
    if n > 1 {
      FetchedCons(search, request, log, n - 1);
    }
    forall j | 1 <= j < n - 1 ensures LastAfter(Fetched(search, all[..j]), startHour) {
      FetchedCons(search, request, log, j);
    }
  }

  /** A call that returns, or that searches more than once, got a non-empty
      first page and then ran the loop from it. */
  lemma TweetsDataLoop(service: Service, held: Option<Token>, startHour: Timestamp, maxPages: nat)
    ensures var run := TweetsData(service, held, startHour, maxPages);
      var request := Request(Bearer(service, held), SearchPath(""));
      var first := service.search(request).body;
      run.result.Ok? || |run.requests| >= 2 ==>
        && |first.statuses| > 0
        && (var start := LoopState(first.statuses, first.statuses[|first.statuses| - 1].createdAt, first.nextResults);
            var o := PageLoop(service.search, Bearer(service, held), startHour, start, maxPages);
            run.requests == [request] + o.requests && run.result == o.result)
  {
  }

  /** A call that returns has made at least one search, asked first for the
      first page and then for the page each reply's `next_results` names,
      got status 200 each time, and returns the pages joined in fetch order. */
  lemma FetchFollowsPages(service: Service, held: Option<Token>, startHour: Timestamp, maxPages: nat)
    ensures var run := TweetsData(service, held, startHour, maxPages);
      run.result.Ok? ==>
        && |run.requests| >= 1
        && run.result.value == Fetched(service.search, run.requests)
        && AllAccepted(service.search, run.requests)
        && FollowsCursors(service.search, "", run.requests)
  {
    var run := TweetsData(service, held, startHour, maxPages);
    TweetsDataLoop(service, held, startHour, maxPages);
    if run.result.Ok? {
      var request := Request(Bearer(service, held), SearchPath(""));
      var tweets := service.search(request).body.statuses;
      var start := LoopState(tweets, tweets[|tweets| - 1].createdAt, service.search(request).body.nextResults);
      var o := PageLoop(service.search, Bearer(service, held), startHour, start, maxPages);
      PageLoopFetches(service.search, Bearer(service, held), startHour, start, maxPages);
      ConsFetches(service.search, [], "", request, o.requests);
      assert [] + tweets == tweets && [] + Fetched(service.search, run.requests) == Fetched(service.search, run.requests);
    }
  }

  /** How many searches a call that returns has made. If the last tweet of the
      first page is not after the cutoff, exactly one. Otherwise the loop goes
      on while the date it re-reads, taken before the latest page was
      appended, is after the cutoff: it fetches every page up to the first one
      after which the last accumulated tweet is not after the cutoff, and then
      one page more, so never exactly two. */
  lemma FetchStopsOnePageLate(service: Service, held: Option<Token>, startHour: Timestamp, maxPages: nat)
    ensures var run := TweetsData(service, held, startHour, maxPages);
      var log := run.requests;
      var n := |log|;
      run.result.Ok? ==>
        && n >= 1
        && Fetched(service.search, log[..1]) != []
        && (n == 1 <==> !LastAfter(Fetched(service.search, log[..1]), startHour))
        && (n > 1 ==> n >= 3 && !LastAfter(Fetched(service.search, log[..n - 1]), startHour))
        && (forall j :: 1 <= j < n - 1 ==> LastAfter(Fetched(service.search, log[..j]), startHour))
  {
    var run := TweetsData(service, held, startHour, maxPages);
    TweetsDataLoop(service, held, startHour, maxPages);
    if run.result.Ok? {
      var request := Request(Bearer(service, held), SearchPath(""));
      var tweets := service.search(request).body.statuses;
      var start := LoopState(tweets, tweets[|tweets| - 1].createdAt, service.search(request).body.nextResults);
      PageLoopStops(service.search, Bearer(service, held), startHour, start, maxPages);
      var o := PageLoop(service.search, Bearer(service, held), startHour, start, maxPages);
      LiftStops(service.search, startHour, request, o.requests);
    }
  }

  /** Because the loop test lags one page behind, a call never returns after
      exactly two searches. */
  lemma NeverTwoSearches(service: Service, held: Option<Token>, startHour: Timestamp, maxPages: nat)
    ensures var run := TweetsData(service, held, startHour, maxPages);
      run.result.Ok? ==> |run.requests| != 2
  {
    FetchStopsOnePageLate(service, held, startHour, maxPages);
  }

  /** A reply without `next_results` sends the next request back to the
      first-page query: a call that goes on after such a first page asks for
      the first page twice. */
  lemma MissingCursorRefetchesFirstPage(service: Service, held: Option<Token>, startHour: Timestamp, maxPages: nat)
    ensures var run := TweetsData(service, held, startHour, maxPages);
      |run.requests| >= 2 && service.search(run.requests[0]).body.nextResults == "" ==>
        run.requests[1] == run.requests[0]
  {
    var run := TweetsData(service, held, startHour, maxPages);
    TweetsDataLoop(service, held, startHour, maxPages);
    if |run.requests| >= 2 {
      var request := Request(Bearer(service, held), SearchPath(""));
      var first := service.search(request).body;
      var start := LoopState(first.statuses, first.statuses[|first.statuses| - 1].createdAt, first.nextResults);
      var o := PageLoop(service.search, Bearer(service, held), startHour, start, maxPages);
      PageLoopFirstRequest(service.search, Bearer(service, held), startHour, start, maxPages);
      assert run.requests[0] == request && run.requests[1] == o.requests[0];
    }
  }

  /** So a first page without `next_results` whose last tweet is after the
      cutoff makes the call loop until the bound on pages stops it: it never
      returns the tweets. */
  lemma MissingCursorNeverReturns(service: Service, held: Option<Token>, startHour: Timestamp, maxPages: nat)
    requires held.Some? || service.tokenReply.statusCode == 200
    requires var first := service.search(Request(Bearer(service, held), SearchPath("")));
      first.statusCode == 200 && first.body.nextResults == "" && LastAfter(first.body.statuses, startHour)
    ensures TweetsData(service, held, startHour, maxPages).result == Err(PageLimit)
  {
    var first := service.search(Request(Bearer(service, held), SearchPath(""))).body.statuses;
    var start := LoopState(first, first[|first| - 1].createdAt, "");
    StuckOnFirstPage(service.search, Bearer(service, held), startHour, start, maxPages);
  }

  /** A first page whose last tweet is not after the cutoff is returned as it
      is, after exactly one search. */
  lemma OnePageSuffices(service: Service, held: Option<Token>, startHour: Timestamp, maxPages: nat, p1: Page)
    requires held.Some? || service.tokenReply.statusCode == 200
    requires service.search(Request(Bearer(service, held), SearchPath(""))) == Reply(200, p1)
    requires p1.statuses != [] && !LastAfter(p1.statuses, startHour)
    ensures TweetsData(service, held, startHour, maxPages)
      == Run(Ok(p1.statuses), Some(Bearer(service, held)), held.None?, [Request(Bearer(service, held), SearchPath(""))])
  {
  }

  /** A first page newer than the cutoff and a second page that reaches back
      past it: the loop still fetches a third page and returns all three. */
  lemma TwoPagesFetchThree(service: Service, held: Option<Token>, startHour: Timestamp, maxPages: nat,
                           p1: Page, p2: Page, p3: Page)
    requires held.Some? || service.tokenReply.statusCode == 200
    requires maxPages >= 2
    requires service.search(Request(Bearer(service, held), SearchPath(""))) == Reply(200, p1)
    requires service.search(Request(Bearer(service, held), SearchPath(p1.nextResults))) == Reply(200, p2)
    requires service.search(Request(Bearer(service, held), SearchPath(p2.nextResults))) == Reply(200, p3)
    requires LastAfter(p1.statuses, startHour) && !LastAfter(p1.statuses + p2.statuses, startHour)
    ensures var bearer := Bearer(service, held);
      TweetsData(service, held, startHour, maxPages)
      == Run(Ok(p1.statuses + p2.statuses + p3.statuses), Some(bearer), held.None?,
             [Request(bearer, SearchPath("")), Request(bearer, SearchPath(p1.nextResults)),
              Request(bearer, SearchPath(p2.nextResults))])
  {
    var bearer, search := Bearer(service, held), service.search;
    var s1 := LoopState(p1.statuses, p1.statuses[|p1.statuses| - 1].createdAt, p1.nextResults);
    var s2 := NextState(search, bearer, s1);
    var s3 := NextState(search, bearer, s2);
    assert s2 == LoopState(p1.statuses + p2.statuses, s1.lastItemDate, p2.nextResults);
    assert s3 == LoopState(p1.statuses + p2.statuses + p3.statuses,
                           (p1.statuses + p2.statuses)[|p1.statuses + p2.statuses| - 1].createdAt, p3.nextResults);
    PageLoopStep(search, bearer, startHour, s1, maxPages);
    PageLoopStep(search, bearer, startHour, s2, maxPages - 1);
    assert PageLoop(search, bearer, startHour, s3, maxPages - 2) == Outcome(Ok(s3.tweets), []);
  }

  /** A rejected token request ends the call with its status before any search. */
  lemma TokenRejected(service: Service, startHour: Timestamp, maxPages: nat)
    requires service.tokenReply.statusCode != 200
    ensures TweetsData(service, None, startHour, maxPages)
      == Run(Err(Rejected(service.tokenReply.statusCode)), None, true, [])
  {
  }

  /** A call rejects with a status code only if that code is not 200 and is
      the status of the token reply, before any search, or of the last search. */
  lemma RejectionCarriesStatus(service: Service, held: Option<Token>, startHour: Timestamp, maxPages: nat, code: int)
    requires TweetsData(service, held, startHour, maxPages).result == Err(Rejected(code))
    ensures var log := TweetsData(service, held, startHour, maxPages).requests;
      && code != 200
      && (log == [] ==> held.None? && service.tokenReply.statusCode == code)
      && (log != [] ==> service.search(log[|log| - 1]).statusCode == code)
  {
    var run := TweetsData(service, held, startHour, maxPages);
    var request := Request(Bearer(service, held), SearchPath(""));
    var first := service.search(request);
    if run.requests != [] && first.statusCode == 200 && first.body.statuses != [] {
      var tweets := first.body.statuses;
      var start := LoopState(tweets, tweets[|tweets| - 1].createdAt, first.body.nextResults);
      PageLoopRejected(service.search, Bearer(service, held), startHour, start, maxPages, code);
      var o := PageLoop(service.search, Bearer(service, held), startHour, start, maxPages);
      assert run.requests == [request] + o.requests;
      assert run.requests[|run.requests| - 1] == o.requests[|o.requests| - 1];
    }
  }

  /** The converse: every search but the last was accepted, and a last
      search answered with another status makes the call reject with exactly
      that status. */
  lemma SearchRejectionPropagates(service: Service, held: Option<Token>, startHour: Timestamp, maxPages: nat)
    ensures var run := TweetsData(service, held, startHour, maxPages);
      var log := run.requests;
      && AcceptedBeforeLast(service.search, log)
      && (|log| > 0 && service.search(log[|log| - 1]).statusCode != 200 ==>
            run.result == Err(Rejected(service.search(log[|log| - 1]).statusCode)))
  {
    var run := TweetsData(service, held, startHour, maxPages);
    var request := Request(Bearer(service, held), SearchPath(""));
    var first := service.search(request);
    if (held.Some? || service.tokenReply.statusCode == 200) && first.statusCode == 200 && first.body.statuses != [] {
      var tweets := first.body.statuses;
      var start := LoopState(tweets, tweets[|tweets| - 1].createdAt, first.body.nextResults);
      var o := PageLoop(service.search, Bearer(service, held), startHour, start, maxPages);
      PageLoopRejectsAtLast(service.search, Bearer(service, held), startHour, start, maxPages);
      assert run.requests == [request] + o.requests && run.result == o.result;
      forall i | 0 <= i < |run.requests| - 1 ensures service.search(run.requests[i]).statusCode == 200 {
        if i > 0 {
          assert run.requests[i] == o.requests[i - 1];
        }
      }
      if |o.requests| > 0 {
        assert run.requests[|run.requests| - 1] == o.requests[|o.requests| - 1];
      }
    }
  }

  /** The call fails for want of a last item exactly when the first page
      comes back with status 200 and no statuses. */
  lemma EmptyFirstPage(service: Service, held: Option<Token>, startHour: Timestamp, maxPages: nat)
    ensures TweetsData(service, held, startHour, maxPages).result == Err(NoLastItem) <==>
      && (held.Some? || service.tokenReply.statusCode == 200)
      && service.search(Request(Bearer(service, held), SearchPath(""))).statusCode == 200
      && service.search(Request(Bearer(service, held), SearchPath(""))).body.statuses == []
  {
    var first := service.search(Request(Bearer(service, held), SearchPath(""))).body.statuses;
    if (held.Some? || service.tokenReply.statusCode == 200) && |first| > 0 {
      var start := LoopState(first, first[|first| - 1].createdAt,
                             service.search(Request(Bearer(service, held), SearchPath(""))).body.nextResults);
      PageLoopShape(service.search, Bearer(service, held), startHour, start, maxPages);
    }
  }

  /** The module state of `helpers/twitter.js`: the memoised `token`. The two
      ghost fields count the token requests and log the search requests made
      through this object. */
  class TwitterClient {
    var token: Option<Token>
    ghost var tokenRequests: nat
    ghost var searchLog: seq<Request>

    constructor ()
      ensures token == None && tokenRequests == 0 && searchLog == []
    {
      token := None;
      tokenRequests := 0;
      searchLog := [];
    }

    /** `getToken`: one request to the token endpoint. */
    method GetToken(service: Service) returns (r: Result<Token>)
      modifies this`tokenRequests
      ensures r == Receive(service.tokenReply)
      ensures tokenRequests == old(tokenRequests) + 1
    {
      r := Receive(service.tokenReply);
      tokenRequests := tokenRequests + 1;
    }

    /** `getTweets`: one search request for the page `next` names. */
    method GetTweets(service: Service, bearer: Token, next: string) returns (r: Result<Page>)
      modifies this`searchLog
      ensures r == Receive(service.search(Request(bearer, SearchPath(next))))
      ensures searchLog == old(searchLog) + [Request(bearer, SearchPath(next))]
    {
      var request := Request(bearer, SearchPath(next));
      r := Receive(service.search(request));
      searchLog := searchLog + [request];
    }

    /** `getTweetsData`: ask for a token only when none is held, fetch the
        first page, then loop as the source does; at most `maxPages` pages
        are requested after the first. */
    method GetTweetsData(service: Service, startHour: Timestamp, maxPages: nat) returns (r: Result<seq<Tweet>>)
      modifies this
      ensures var run := TweetsData(service, old(token), startHour, maxPages);
        && r == run.result
        && token == run.token
        && tokenRequests == old(tokenRequests) + (if run.tokenRequested then 1 else 0)
        && searchLog == old(searchLog) + run.requests
    {
      if token.None? {
        var t := GetToken(service);
        if t.Err? {
          return Err(t.error);
        }
        token := Some(t.value);
      }
      var bearer := token.value;
      var first := GetTweets(service, bearer, "");
      if first.Err? {
        return Err(first.error);
      }
      var nextPage := first.value.nextResults;
      var tweets := first.value.statuses;
      if |tweets| == 0 {
        return Err(NoLastItem);
      }
      r := FollowPages(service, bearer, startHour, tweets, nextPage, maxPages);
    }

    /** The `while` loop of `getTweetsData`, from the first page on. */
    method FollowPages(service: Service, bearer: Token, startHour: Timestamp,
                       first: seq<Tweet>, firstNext: string, maxPages: nat) returns (r: Result<seq<Tweet>>)
      requires |first| > 0
      modifies this`searchLog
      ensures var o := PageLoop(service.search, bearer, startHour,
                                LoopState(first, first[|first| - 1].createdAt, firstNext), maxPages);
        r == o.result && searchLog == old(searchLog) + o.requests
    {
      var tweets, nextPage := first, firstNext;
      var lastItemDate := tweets[|tweets| - 1].createdAt;
      var fuel := maxPages;
      ghost var log0 := searchLog;
      ghost var target := PageLoop(service.search, bearer, startHour, LoopState(tweets, lastItemDate, nextPage), fuel);
      while lastItemDate > startHour
        invariant |tweets| > 0
        invariant PageLoop(service.search, bearer, startHour, LoopState(tweets, lastItemDate, nextPage), fuel).result
                  == target.result
        invariant searchLog + PageLoop(service.search, bearer, startHour, LoopState(tweets, lastItemDate, nextPage), fuel).requests
                  == log0 + target.requests
        decreases fuel
      {
        ghost var s := LoopState(tweets, lastItemDate, nextPage);
        ghost var logBefore0 := searchLog;
        if fuel == 0 {
          return Err(PageLimit);
        }
        PageLoopStep(service.search, bearer, startHour, s, fuel);
        ghost var request := NextRequest(bearer, s);
        ghost var page := service.search(request).body;
        ghost var next := NextState(service.search, bearer, s);
        ghost var rest := PageLoop(service.search, bearer, startHour, next, fuel - 1);
        ghost var o := PageLoop(service.search, bearer, startHour, s, fuel);
        assert o.result == target.result && logBefore0 + o.requests == log0 + target.requests;
        assert next == LoopState(tweets + page.statuses, tweets[|tweets| - 1].createdAt, page.nextResults);
        ghost var logBefore := searchLog;
        lastItemDate := tweets[|tweets| - 1].createdAt;
        var newTweets := GetTweets(service, bearer, nextPage);
        assert searchLog == logBefore + [request];
        if newTweets.Err? {
          assert o == Outcome(Err(newTweets.error), [request]);
          return Err(newTweets.error);
        }
        assert o == Outcome(rest.result, [request] + rest.requests);
        assert newTweets.value == page;
        nextPage := newTweets.value.nextResults;
        tweets := tweets + newTweets.value.statuses;
        fuel := fuel - 1;
        assert LoopState(tweets, lastItemDate, nextPage) == next;
        assert PageLoop(service.search, bearer, startHour, LoopState(tweets, lastItemDate, nextPage), fuel) == rest;
        assert logBefore + ([request] + rest.requests) == searchLog + rest.requests;
      }
      return Ok(tweets);
    }
  }
}
