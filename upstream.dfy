/** The search API as the fetcher sees it: replies with a status code, the
    paths that `getTweets` requests, and the errors a request can end in. */
module Upstream {
  import opened Tweets

  datatype Option<T> = None | Some(value: T)

  /** The bearer credential from `/oauth2/token`. */
  datatype Token = Token(tokenType: string, accessToken: string)

  /** One search response: its `statuses` and `search_metadata.next_results`;
      an absent `next_results` is the empty cursor. */
  datatype Page = Page(statuses: seq<Tweet>, nextResults: string)

  /** A response with its status code and its parsed body. */
  datatype Reply<T> = Reply(statusCode: int, body: T)

  /** A search request: the credential in its `Authorization` header and its path. */
  datatype Request = Request(auth: Token, path: string)

  datatype Error =
    | Rejected(statusCode: int)  // a reply whose status is not 200
    | NoLastItem                 // the first page has no statuses
    | PageLimit                  // the bound on follow-up pages was reached

  datatype Result<T> = Ok(value: T) | Err(error: Error)

  /** The upstream: the reply of the token endpoint and the reply to each search request. */
  datatype Service = Service(tokenReply: Reply<Token>, search: Request -> Reply<Page>)

  const SearchBase := "/1.1/search/tweets.json"
  const FirstQuery := "?q=%23IoT&result_type=recent&count=100"

  /** A request resolves with the parsed body when the status is 200 and is
      rejected with the status code otherwise. */
  function Receive<T>(reply: Reply<T>): (r: Result<T>)
    ensures r.Ok? <==> reply.statusCode == 200
    ensures r.Ok? ==> r.value == reply.body
    ensures r.Err? ==> r.error == Rejected(reply.statusCode) && r.error.statusCode != 200
  {
    if reply.statusCode != 200 then Err(Rejected(reply.statusCode)) else Ok(reply.body)
  }

  /** The path `getTweets` requests for a cursor: the search endpoint followed
      by the cursor, or by the fixed first-page query when the cursor is empty. */
  function SearchPath(next: string): string
  {
    SearchBase + if next != "" then next else FirstQuery
  }

  /** The path starts with the search endpoint, and what follows it is the
      cursor, or the first-page query when the cursor is empty. */
  lemma SearchPathParts(next: string)
    ensures var path := SearchPath(next);
      && |SearchBase| <= |path| && path[..|SearchBase|] == SearchBase
      && path[|SearchBase|..] == if next != "" then next else FirstQuery
  {
  }

  /** A cursor requests the first page again exactly when it is empty or is
      the first-page query itself. */
  lemma SearchPathFirstPage(next: string)
    ensures SearchPath(next) == SearchPath("") <==> next == "" || next == FirstQuery
  {
    if SearchPath(next) == SearchPath("") {
      SearchPathParts(next);
      SearchPathParts("");
      assert SearchPath(next)[|SearchBase|..] == SearchPath("")[|SearchBase|..];
    }
  }

  /** Two non-empty cursors request the same path only if they are equal. */
  lemma SearchPathInjective(a: string, b: string)
    requires a != "" && b != ""
    ensures SearchPath(a) == SearchPath(b) <==> a == b
  {
    if SearchPath(a) == SearchPath(b) {
      SearchPathParts(a);
      SearchPathParts(b);
      assert SearchPath(a)[|SearchBase|..] == SearchPath(b)[|SearchBase|..];
    }
  }
}
