/** `filterTweetsUsers`: the distinct authors of the tweets in the window. */
module Users {
  import opened Tweets
  import opened WindowFilter

  /** The `user.id` of each tweet, in order. */
  function Authors(tweets: seq<Tweet>): (ids: seq<UserId>)
  {
    seq(|tweets|, i requires 0 <= i < |tweets| => tweets[i].userId)
  }

  predicate NoDuplicates<T(==)>(s: seq<T>)
  {
    forall i, j :: 0 <= i < j < |s| ==> s[i] != s[j]
  }

  /** Each element of `s` once, at the place it first occurs: the keys of a
      dictionary that `s` is inserted into, one element at a time, in
      insertion order. */
  function Distinct(s: seq<UserId>): (r: seq<UserId>)
    ensures NoDuplicates(r)
    ensures forall x :: x in r <==> x in s
    ensures |r| <= |s|
  {
    if s == [] then []
    else
      var init, x := s[..|s| - 1], s[|s| - 1];
      assert s == init + [x];
      var d := Distinct(init);
      if x in d then d else d + [x]
  }

  /** Inserting the authors of the filtered tweets, one by one and only if not
      present yet, into the dictionary `userObj` keyed by `user.id`, then
      listing its keys. */
  method FilterTweetsUsers(tweets: seq<Tweet>, w: Window) returns (ids: seq<UserId>)
    ensures ids == Distinct(Authors(FilterTweetsCount(tweets, w)))
    ensures NoDuplicates(ids)
    ensures forall id :: id in ids <==> exists t :: t in FilterTweetsCount(tweets, w) && t.userId == id
    ensures |ids| <= |FilterTweetsCount(tweets, w)|
  {
    var data := FilterTweetsCount(tweets, w);
    var userObj: map<UserId, UserId> := map[];
    ids := [];
    var i := 0;
    while i < |data|
      invariant 0 <= i <= |data|
      invariant ids == Distinct(Authors(data[..i]))
      invariant forall k :: k in userObj <==> k in ids
      invariant forall k :: k in userObj ==> userObj[k] == k
    {
      var id := data[i].userId;
      AuthorsSnoc(data, i);
      DistinctSnoc(Authors(data[..i]), id);
      if id !in userObj {
        userObj := userObj[id := id];
        ids := ids + [id];
      }
      i := i + 1;
    }
    assert data[..i] == data;
    AuthorsMembers(data);
    assert |Authors(data)| == |data|;
  }

  /** One more tweet adds its author at the end. */
  lemma AuthorsSnoc(tweets: seq<Tweet>, i: nat)
    requires i < |tweets|
    ensures Authors(tweets[..i + 1]) == Authors(tweets[..i]) + [tweets[i].userId]
  {
  }

  /** Inserting one more value into the dictionary adds it at the end of the
      keys if it is new, and changes nothing otherwise. */
  lemma DistinctSnoc(s: seq<UserId>, x: UserId)
    ensures Distinct(s + [x]) == if x in Distinct(s) then Distinct(s) else Distinct(s) + [x]
  {
    assert (s + [x])[..|s|] == s;
  }

  /** An id is among the authors exactly when some tweet has it as `user.id`. */
  lemma AuthorsMembers(tweets: seq<Tweet>)
    ensures forall id :: id in Authors(tweets) <==> exists t :: t in tweets && t.userId == id
  {
    forall id | id in Authors(tweets)
      ensures exists t :: t in tweets && t.userId == id
    {
      var i :| 0 <= i < |tweets| && Authors(tweets)[i] == id;
      assert tweets[i] in tweets;
    }
    forall t | t in tweets ensures t.userId in Authors(tweets) {
      var i :| 0 <= i < |tweets| && tweets[i] == t;
      assert Authors(tweets)[i] == t.userId;
    }
  }

  /** The number of distinct authors is the size of the set of authors. */
  lemma {:induction false} DistinctCardinality(s: seq<UserId>)
    ensures |Distinct(s)| == |set x | x in s|
  {
    NoDuplicatesCardinality(Distinct(s));
    assert (set x | x in Distinct(s)) == (set x | x in s);
  }

  lemma {:induction false} NoDuplicatesCardinality(s: seq<UserId>)
    requires NoDuplicates(s)
    ensures |set x | x in s| == |s|
  {
    if s != [] {
      var init, x := s[..|s| - 1], s[|s| - 1];
      assert s == init + [x];
      NoDuplicatesCardinality(init);
      assert (set y | y in s) == (set y | y in init) + {x};
      assert x !in init;
    }
  }

  /** Removing duplicates leaves the first occurrences in their order. */
  lemma {:induction false} DistinctIsSubsequence(s: seq<UserId>)
    ensures IsSubsequence(Distinct(s), s)
  {
    if s != [] {
      var init, x := s[..|s| - 1], s[|s| - 1];
      assert s == init + [x];
      DistinctIsSubsequence(init);
      SubsequenceExtend(Distinct(init), init, x, x !in Distinct(init));
    }
  }

  /** The keys after any prefix of the insertions are a prefix of the final
      keys: a key keeps the place it got when first inserted, so the keys are
      in order of first occurrence. */
  lemma {:induction false} DistinctPrefixes(s: seq<UserId>)
    ensures forall k :: 0 <= k <= |s| ==> Distinct(s[..k]) <= Distinct(s)
  {
    if s != [] {
      var init := s[..|s| - 1];
      assert s == init + [s[|s| - 1]];
      DistinctPrefixes(init);
      assert Distinct(init) <= Distinct(s);
      forall k | 0 <= k <= |s| ensures Distinct(s[..k]) <= Distinct(s) {
        if k < |s| {
          assert s[..k] == init[..k];
          assert Distinct(init[..k]) <= Distinct(init);
        } else {
          assert s[..k] == s;
        }
      }
    }
  }

  /** `a` of `b` carries over to `b + [x]`, and to `a + [x]` when asked. */
  lemma {:induction false} SubsequenceExtend<T>(a: seq<T>, b: seq<T>, x: T, both: bool)
    requires IsSubsequence(a, b)
    ensures IsSubsequence(if both then a + [x] else a, b + [x])
    decreases |b|
  {
    if b == [] {
      assert a == [];
      if both {
        assert IsSubsequence([x][1..], [x][1..]);
      }
    } else if a == [] {
      if both {
        SubsequenceExtend(a, b[1..], x, true);
        assert (b + [x])[1..] == b[1..] + [x];
      }
    } else {
      var c := if both then a + [x] else a;
      assert c[0] == a[0] && (both ==> c[1..] == a[1..] + [x]) && (!both ==> c[1..] == a[1..]);
      assert (b + [x])[0] == b[0] && (b + [x])[1..] == b[1..] + [x];
      if a[0] == b[0] && IsSubsequence(a[1..], b[1..]) {
        SubsequenceExtend(a[1..], b[1..], x, both);
      } else {
        SubsequenceExtend(a, b[1..], x, both);
      }
    }
  }

  /** Removing duplicates changes nothing exactly when there are none. */
  lemma {:induction false} DistinctFixedPoint(s: seq<UserId>)
    ensures Distinct(s) == s <==> NoDuplicates(s)
  {
    if s != [] {
      var init, x := s[..|s| - 1], s[|s| - 1];
      assert s == init + [x];
      DistinctFixedPoint(init);
      if NoDuplicates(s) {
        assert NoDuplicates(init);
        assert x !in init by {
          forall k | 0 <= k < |init| ensures init[k] != x {
            assert s[k] == init[k];
          }
        }
      } else if Distinct(s) == s {
        assert false;
      }
    }
  }

  /** Posts at 10:05 by "a", 10:30 by "b" and 10:30 by "a" (here ids 1 and 2),
      window 10:00 to 10:30: all three are kept. */
  lemma ExampleWindowKeepsAll()
    ensures FilterTweetsCount([Tweet(36300, 1), Tweet(37800, 2), Tweet(37800, 1)], Window(36000, 37800))
      == [Tweet(36300, 1), Tweet(37800, 2), Tweet(37800, 1)]
  {
    FilterKeepsAllInWindow([Tweet(36300, 1), Tweet(37800, 2), Tweet(37800, 1)], Window(36000, 37800));
  }

  lemma DistinctExample()
    ensures Distinct([1, 2, 1]) == [1, 2]
  {
    assert [1][..0] == [] && [1, 2][..1] == [1] && [1, 2, 1][..2] == [1, 2];
    assert Distinct([1]) == [1];
    assert Distinct([1, 2]) == [1, 2];
  }

  /** The same posts have the two authors a and b, in that order. */
  method ExampleWindowAuthors() returns (ids: seq<UserId>)
    ensures ids == [1, 2]
  {
    var ts := [Tweet(36300, 1), Tweet(37800, 2), Tweet(37800, 1)];
    ids := FilterTweetsUsers(ts, Window(36000, 37800));
    ExampleWindowKeepsAll();
    assert Authors(ts) == [1, 2, 1];
    DistinctExample();
  }
}
