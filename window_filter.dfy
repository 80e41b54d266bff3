/** `filterTweetsCount`: keep the tweets created inside the window, in order. */
module WindowFilter {
  import opened Tweets

  /** `a` is `b` with some elements removed and the rest left in order. */
  predicate IsSubsequence<T(==)>(a: seq<T>, b: seq<T>)
    decreases |b|
  {
    if a == [] then true
    else if b == [] then false
    else (a[0] == b[0] && IsSubsequence(a[1..], b[1..])) || IsSubsequence(a, b[1..])
  }

  /** The tweets of `tweets` whose `created_at` is in the window, in their
      original order. */
  function FilterTweetsCount(tweets: seq<Tweet>, w: Window): (r: seq<Tweet>)
    ensures |r| <= |tweets|
    ensures tweets == [] ==> r == []
    ensures forall t :: t in r ==> t in tweets && InWindow(t.createdAt, w)
    ensures forall t :: t in tweets && InWindow(t.createdAt, w) ==> t in r
  {
    if tweets == [] then []
    else
      (if InWindow(tweets[0].createdAt, w) then [tweets[0]] else [])
      + FilterTweetsCount(tweets[1..], w)
  }

  /** The filter keeps order: its result is a subsequence of its input. */
  lemma {:induction false} FilterIsSubsequence(tweets: seq<Tweet>, w: Window)
    ensures IsSubsequence(FilterTweetsCount(tweets, w), tweets)
  {
    if tweets != [] {
      var rest := FilterTweetsCount(tweets[1..], w);
      FilterIsSubsequence(tweets[1..], w);
      if InWindow(tweets[0].createdAt, w) {
        assert FilterTweetsCount(tweets, w) == [tweets[0]] + rest;
        assert ([tweets[0]] + rest)[1..] == rest;
      } else {
        assert FilterTweetsCount(tweets, w) == rest;
        SubsequenceOfTail(rest, tweets);
      }
    }
  }

  /** A subsequence of the tail is a subsequence of the whole. */
  lemma {:induction false} SubsequenceOfTail<T>(a: seq<T>, b: seq<T>)
    requires b != [] && IsSubsequence(a, b[1..])
    ensures IsSubsequence(a, b)
  {
  }

  /** Exactly the in-window tweets, each as often as in the input: a tweet in
      the window keeps all its copies, one outside it keeps none. */
  lemma {:induction false} FilterMultiplicity(tweets: seq<Tweet>, w: Window)
    ensures forall t ::
              multiset(FilterTweetsCount(tweets, w))[t] ==
              (if InWindow(t.createdAt, w) then multiset(tweets)[t] else 0)
  {
    if tweets != [] {
      FilterMultiplicity(tweets[1..], w);
      assert tweets == [tweets[0]] + tweets[1..];
      assert multiset(tweets) == multiset([tweets[0]]) + multiset(tweets[1..]);
    }
  }

  /** Filtering pages joined together is joining the filtered pages. */
  lemma {:induction false} FilterConcat(a: seq<Tweet>, b: seq<Tweet>, w: Window)
    ensures FilterTweetsCount(a + b, w) == FilterTweetsCount(a, w) + FilterTweetsCount(b, w)
  {
    if a == [] {
      assert a + b == b;
    } else {
      assert (a + b)[0] == a[0] && (a + b)[1..] == a[1..] + b;
      FilterConcat(a[1..], b, w);
    }
  }

  /** Filtering twice with the same window changes nothing. */
  lemma {:induction false} FilterIdempotent(tweets: seq<Tweet>, w: Window)
    ensures FilterTweetsCount(FilterTweetsCount(tweets, w), w) == FilterTweetsCount(tweets, w)
  {
    if tweets != [] {
      FilterIdempotent(tweets[1..], w);
      var rest := FilterTweetsCount(tweets[1..], w);
      if InWindow(tweets[0].createdAt, w) {
        var kept := [tweets[0]] + rest;
        assert FilterTweetsCount(tweets, w) == kept;
        assert kept[0] == tweets[0] && kept[1..] == rest;
        assert FilterTweetsCount(kept, w) == [tweets[0]] + FilterTweetsCount(rest, w);
      } else {
        assert FilterTweetsCount(tweets, w) == rest;
      }
    }
  }

  /** A window that every tweet lies in keeps the whole input. */
  lemma {:induction false} FilterKeepsAllInWindow(tweets: seq<Tweet>, w: Window)
    requires forall i :: 0 <= i < |tweets| ==> InWindow(tweets[i].createdAt, w)
    ensures FilterTweetsCount(tweets, w) == tweets
  {
    if tweets != [] {
      FilterKeepsAllInWindow(tweets[1..], w);
    }
  }
}
