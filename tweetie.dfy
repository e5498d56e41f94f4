/** The data-gathering half of the system: turning the items of a user's
    timeline into tweet records, and the accounts a user follows into
    friend records ranked by their follower count. The API client and the
    sentiment scorer are inputs: a timeline or friends response is a
    sequence of items, and the scorer is a function from text to the
    "compound" polarity score. */
module Tweetie {
  import opened Wrappers

  /** A calendar date (what `datetime.date()` keeps). */
  datatype Date = Date(year: int, month: int, day: int)

  /** A timestamp as the API reports it; `.date()` drops the time of day. */
  datatype DateTime = DateTime(date: Date, secondOfDay: nat)

  // ---------------------------------------------------------------------
  // Timeline items and tweet records
  // ---------------------------------------------------------------------

  /** One entry of `entities['hashtags']`. */
  datatype HashtagEntity = HashtagEntity(text: string, indices: seq<int>)

  /** One entry of `entities['urls']`: the record keeps `expanded_url`. */
  datatype UrlEntity = UrlEntity(url: string, expandedUrl: string, displayUrl: string)

  /** One entry of `entities['user_mentions']`: the record keeps `screen_name`. */
  datatype MentionEntity = MentionEntity(screenName: string, name: string, id: int)

  datatype Entities = Entities(
    hashtags: seq<HashtagEntity>,
    urls: seq<UrlEntity>,
    userMentions: seq<MentionEntity>)

  /** One item of the `user_timeline` response. */
  datatype Status = Status(
    id: int,
    createdAt: DateTime,
    retweetCount: int,
    text: string,
    entities: Entities)

  /** An RGB colour of the red-to-green palette (the `colour.Color` objects). */
  datatype Colour = Colour(red: real, green: real, blue: real)

  /** The dictionary built per tweet. `color` is `None` while the dictionary
      has no "color" key; the server's colouring step writes it. */
  datatype Tweet = Tweet(
    id: int,
    created: Date,
    retweeted: int,
    text: string,
    score: real,
    hashtags: seq<string>,
    urls: seq<string>,
    mentions: seq<string>,
    color: Option<Colour>)

  /** The dictionary `fetch_tweets` returns. */
  datatype Profile = Profile(user: string, count: int, tweets: seq<Tweet>)

  function HashtagTexts(es: seq<HashtagEntity>): (r: seq<string>)
    ensures |r| == |es| && forall j :: 0 <= j < |es| ==> r[j] == es[j].text
  {
    seq(|es|, j requires 0 <= j < |es| => es[j].text)
  }

  function ExpandedUrls(es: seq<UrlEntity>): (r: seq<string>)
    ensures |r| == |es| && forall j :: 0 <= j < |es| ==> r[j] == es[j].expandedUrl
  {
    seq(|es|, j requires 0 <= j < |es| => es[j].expandedUrl)
  }

  function MentionedNames(es: seq<MentionEntity>): (r: seq<string>)
    ensures |r| == |es| && forall j :: 0 <= j < |es| ==> r[j] == es[j].screenName
  {
    seq(|es|, j requires 0 <= j < |es| => es[j].screenName)
  }

  /** The record built for one timeline item: every field is copied from the
      item, the score is the scorer's verdict on its text, the entity lists
      are projected one element per entity in the same order, and there is
      no colour yet. */
  function TweetRecord(t: Status, scorer: string -> real): (r: Tweet)
    ensures r.id == t.id && r.created == t.createdAt.date
    ensures r.retweeted == t.retweetCount && r.text == t.text
    ensures r.score == scorer(t.text)
    ensures |r.hashtags| == |t.entities.hashtags|
    ensures forall j :: 0 <= j < |r.hashtags| ==> r.hashtags[j] == t.entities.hashtags[j].text
    ensures |r.urls| == |t.entities.urls|
    ensures forall j :: 0 <= j < |r.urls| ==> r.urls[j] == t.entities.urls[j].expandedUrl
    ensures |r.mentions| == |t.entities.userMentions|
    ensures forall j :: 0 <= j < |r.mentions| ==> r.mentions[j] == t.entities.userMentions[j].screenName
    ensures r.color == None
  {
    Tweet(t.id, t.createdAt.date, t.retweetCount, t.text, scorer(t.text),
          HashtagTexts(t.entities.hashtags),
          ExpandedUrls(t.entities.urls),
          MentionedNames(t.entities.userMentions),
          None)
  }

  /** The records built by the loop of `fetch_tweets`, in response order. */
  function TweetRecords(response: seq<Status>, scorer: string -> real): (r: seq<Tweet>)
    ensures |r| == |response|
    ensures forall i :: 0 <= i < |r| ==> r[i] == TweetRecord(response[i], scorer)
  {
    seq(|response|, i requires 0 <= i < |response| => TweetRecord(response[i], scorer))
  }

  /** `fetch_tweets`: one record per timeline item, in response order, the
      scorer applied once per item; `count` is the size of the response and
      `user` the requested name. */
  method FetchTweets(name: string, response: seq<Status>, scorer: string -> real)
    returns (profile: Profile)
    ensures profile.user == name
    ensures profile.count == |response| == |profile.tweets|
    ensures profile.tweets == TweetRecords(response, scorer)
  {
    var tweets: seq<Tweet> := [];
    var i := 0;
    while i < |response|
      invariant 0 <= i <= |response|
      invariant |tweets| == i
      invariant forall j :: 0 <= j < i ==> tweets[j] == TweetRecord(response[j], scorer)
    {
      tweets := tweets + [TweetRecord(response[i], scorer)];
      i := i + 1;
    }
    profile := Profile(name, |response|, tweets);
  }

  // ---------------------------------------------------------------------
  // Friends and their ranking
  // ---------------------------------------------------------------------

  /** One item of the `get_friends` response (a tweepy `User`). */
  datatype FriendUser = FriendUser(
    name: string,
    screenName: string,
    followersCount: int,
    createdAt: DateTime,
    profileImageUrl: string)

  /** The dictionary built per followed account. */
  datatype Friend = Friend(
    name: string,
    screenName: string,
    followers: int,
    created: Date,
    image: string)

  /** The records built by the loop of `fetch_following`, in response order:
      one per account, each field copied from the account. */
  function FriendRecords(response: seq<FriendUser>): (r: seq<Friend>)
    ensures |r| == |response|
    ensures forall i :: 0 <= i < |r| ==>
      && r[i].name == response[i].name
      && r[i].screenName == response[i].screenName
      && r[i].followers == response[i].followersCount
      && r[i].created == response[i].createdAt.date
      && r[i].image == response[i].profileImageUrl
  {
    seq(|response|, i requires 0 <= i < |response| =>
      var f := response[i];
      Friend(f.name, f.screenName, f.followersCount, f.createdAt.date, f.profileImageUrl))
  }

  /** Non-increasing in follower count. */
  predicate RankedByFollowers(s: seq<Friend>) {
    forall i, j :: 0 <= i < j < |s| ==> s[i].followers >= s[j].followers
  }

  /** The records of `s` with exactly `k` followers, in the order of `s`. */
  function WithFollowers(s: seq<Friend>, k: int): (r: seq<Friend>)
    ensures |r| <= |s|
  {
    if s == [] then []
    else (if s[0].followers == k then [s[0]] else []) + WithFollowers(s[1..], k)
  }

  /** What `sorted(friends, reverse=True, key=followers)` promises of its
      result `t`: the same records, non-increasing in followers, and records
      with equal counts in their input order. */
  ghost predicate IsRankingOf(t: seq<Friend>, s: seq<Friend>) {
    && multiset(t) == multiset(s)
    && RankedByFollowers(t)
    && forall k :: WithFollowers(t, k) == WithFollowers(s, k)
  }

  /** Places `x` in front of the first record whose count does not exceed
      its own, so it passes only records with strictly more followers. */
  function InsertByFollowers(x: Friend, t: seq<Friend>): (r: seq<Friend>)
  {
    if t == [] || x.followers >= t[0].followers then [x] + t
    else [t[0]] + InsertByFollowers(x, t[1..])
  }

  /** `sorted(s, reverse=True, key=lambda x: x['followers'])`, written as a
      stable insertion sort. */
  function RankByFollowers(s: seq<Friend>): (r: seq<Friend>)
  {
    if s == [] then [] else InsertByFollowers(s[0], RankByFollowers(s[1..]))
  }

  /** `fetch_following`: builds one record per followed account in response
      order, then returns them ranked. */
  method FetchFollowing(response: seq<FriendUser>) returns (ranked: seq<Friend>)
    ensures ranked == RankByFollowers(FriendRecords(response))
    ensures IsRankingOf(ranked, FriendRecords(response))
    ensures |ranked| == |response|
  {
    var friends: seq<Friend> := [];
    var i := 0;
    while i < |response|
      invariant 0 <= i <= |response|
      invariant friends == FriendRecords(response)[..i]
    {
      var f := response[i];
      friends := friends + [Friend(f.name, f.screenName, f.followersCount, f.createdAt.date, f.profileImageUrl)];
      i := i + 1;
    }
    assert friends == FriendRecords(response);
    ranked := RankByFollowers(friends);
    RankByFollowersIsRanking(friends);
    RankByFollowersLength(friends);
  }

  // ---------------------------------------------------------------------
  // Properties of the ranking
  // ---------------------------------------------------------------------

  lemma {:induction false} InsertPermutes(x: Friend, t: seq<Friend>)
    ensures multiset(InsertByFollowers(x, t)) == multiset{x} + multiset(t)
  {
    if t != [] && x.followers < t[0].followers {
      InsertPermutes(x, t[1..]);
      assert t == [t[0]] + t[1..];
    }
  }

  lemma {:induction false} InsertKeepsRanked(x: Friend, t: seq<Friend>)
    requires RankedByFollowers(t)
    ensures RankedByFollowers(InsertByFollowers(x, t))
  {
    if t != [] && x.followers < t[0].followers {
      InsertKeepsRanked(x, t[1..]);
      InsertPermutes(x, t[1..]);
      var r := InsertByFollowers(x, t[1..]);
      forall j | 0 <= j < |r| ensures t[0].followers >= r[j].followers {
        assert r[j] in multiset(r);
        assert r[j] == x || r[j] in multiset(t[1..]);
      }
    }
  }

  lemma {:induction false} WithFollowersAppend(a: seq<Friend>, b: seq<Friend>, k: int)
    ensures WithFollowers(a + b, k) == WithFollowers(a, k) + WithFollowers(b, k)
  {
    if a == [] {
      assert a + b == b;
    } else {
      var c := a + b;
      var head := if a[0].followers == k then [a[0]] else [];
      assert c != [] && c[0] == a[0] && c[1..] == a[1..] + b;
      assert WithFollowers(c, k) == head + WithFollowers(a[1..] + b, k);
      WithFollowersAppend(a[1..], b, k);
      assert WithFollowers(a, k) == head + WithFollowers(a[1..], k);
      assert head + (WithFollowers(a[1..], k) + WithFollowers(b, k))
          == (head + WithFollowers(a[1..], k)) + WithFollowers(b, k);
    }
  }

  /** Inserting `x` adds it in front of the records with the same count and
      leaves every other count's records as they were. */
  lemma {:induction false} InsertStable(x: Friend, t: seq<Friend>, k: int)
    ensures WithFollowers(InsertByFollowers(x, t), k) == WithFollowers([x] + t, k)
  {
    if t != [] && x.followers < t[0].followers {
      InsertStable(x, t[1..], k);
      var r := InsertByFollowers(x, t[1..]);
      calc {
        WithFollowers([t[0]] + r, k);
        { WithFollowersAppend([t[0]], r, k); }
        WithFollowers([t[0]], k) + WithFollowers(r, k);
        WithFollowers([t[0]], k) + WithFollowers([x] + t[1..], k);
        { WithFollowersAppend([x], t[1..], k); WithFollowersAppend([t[0]], t[1..], k);
          assert [t[0]] + t[1..] == t; }
        WithFollowers([x], k) + WithFollowers(t, k);
        { WithFollowersAppend([x], t, k); }
        WithFollowers([x] + t, k);
      }
    }
  }

  /** The ranking is a permutation, non-increasing, and stable. */
  lemma {:induction false} RankByFollowersIsRanking(s: seq<Friend>)
    ensures IsRankingOf(RankByFollowers(s), s)
  {
    if s != [] {
      var t := RankByFollowers(s[1..]);
      RankByFollowersIsRanking(s[1..]);
      InsertPermutes(s[0], t);
      InsertKeepsRanked(s[0], t);
      assert s == [s[0]] + s[1..];
      forall k ensures WithFollowers(RankByFollowers(s), k) == WithFollowers(s, k) {
        InsertStable(s[0], t, k);
        WithFollowersAppend([s[0]], t, k);
        WithFollowersAppend([s[0]], s[1..], k);
      }
    }
  }

  /** The ranking returns exactly one record per input record. */
  lemma RankByFollowersLength(s: seq<Friend>)
    ensures |RankByFollowers(s)| == |s|
  {
    RankByFollowersIsRanking(s);
    assert |multiset(RankByFollowers(s))| == |multiset(s)|;
  }

  /** Ranking an already ranked list returns it unchanged. */
  lemma {:induction false} RankByFollowersOfRanked(s: seq<Friend>)
    requires RankedByFollowers(s)
    ensures RankByFollowers(s) == s
  {
    if s != [] {
      RankByFollowersOfRanked(s[1..]);
      assert s == [s[0]] + s[1..];
    }
  }

  /** Ranking is idempotent. */
  lemma RankByFollowersIdempotent(s: seq<Friend>)
    ensures RankByFollowers(RankByFollowers(s)) == RankByFollowers(s)
  {
    RankByFollowersIsRanking(s);
    RankByFollowersOfRanked(RankByFollowers(s));
  }

  lemma {:induction false} WithFollowersMember(s: seq<Friend>, k: int, x: Friend)
    requires x in WithFollowers(s, k)
    ensures x in s && x.followers == k
  {
    if s != [] && !(s[0].followers == k && x == s[0]) {
      WithFollowersMember(s[1..], k, x);
    }
  }

  /** Lists that agree on the records of every count are both empty or both not. */
  lemma CountsAgreeOnEmpty(t: seq<Friend>, u: seq<Friend>)
    requires forall k :: WithFollowers(t, k) == WithFollowers(u, k)
    ensures t == [] <==> u == []
  {
    if t != [] {
      assert WithFollowers(t, t[0].followers) != [];
    }
    if u != [] {
      assert WithFollowers(u, u[0].followers) != [];
    }
  }

  /** Non-increasing lists that agree on the records of every count start
      with the same record: the first record of the larger first count. */
  lemma RankedHeadsAgree(t: seq<Friend>, u: seq<Friend>)
    requires t != [] && u != []
    requires RankedByFollowers(t) && RankedByFollowers(u)
    requires forall k :: WithFollowers(t, k) == WithFollowers(u, k)
    ensures t[0] == u[0]
  {
    var a, b := t[0].followers, u[0].followers;
    assert WithFollowers(u, b)[0] == u[0];
    WithFollowersMember(t, b, u[0]);
    assert a >= b;
    assert WithFollowers(t, a)[0] == t[0];
    WithFollowersMember(u, a, t[0]);
    assert b >= a;
  }

  /** Removing the same first record keeps the lists agreeing on every count. */
  lemma TailsAgreeOnCounts(t: seq<Friend>, u: seq<Friend>)
    requires t != [] && u != [] && t[0] == u[0]
    requires forall k :: WithFollowers(t, k) == WithFollowers(u, k)
    ensures forall k :: WithFollowers(t[1..], k) == WithFollowers(u[1..], k)
  {
    forall k ensures WithFollowers(t[1..], k) == WithFollowers(u[1..], k) {
      var head := if t[0].followers == k then [t[0]] else [];
      assert WithFollowers(t, k) == head + WithFollowers(t[1..], k);
      assert WithFollowers(u, k) == head + WithFollowers(u[1..], k);
      assert WithFollowers(t[1..], k) == (head + WithFollowers(t[1..], k))[|head|..];
      assert WithFollowers(u[1..], k) == (head + WithFollowers(u[1..], k))[|head|..];
    }
  }

  /** Two non-increasing lists that agree on the records of every count are
      equal: order within each count and order between counts are fixed. */
  lemma {:induction false} RankedDeterminedByCounts(t: seq<Friend>, u: seq<Friend>)
    requires RankedByFollowers(t) && RankedByFollowers(u)
    requires forall k :: WithFollowers(t, k) == WithFollowers(u, k)
    ensures t == u
    decreases |t|
  {
    CountsAgreeOnEmpty(t, u);
    if t != [] {
      RankedHeadsAgree(t, u);
      TailsAgreeOnCounts(t, u);
      RankedDeterminedByCounts(t[1..], u[1..]);
      assert t == [t[0]] + t[1..] && u == [u[0]] + u[1..];
    }
  }

  /** The three properties pin the result down: any ranking of `s` in the
      sense of `sorted(..., reverse=True)` is the one computed here. */
  lemma RankingIsUnique(s: seq<Friend>, t: seq<Friend>)
    requires IsRankingOf(t, s)
    ensures t == RankByFollowers(s)
  {
    RankByFollowersIsRanking(s);
    RankedDeterminedByCounts(t, RankByFollowers(s));
  }

  /** Accounts A(5), B(10), C(5) rank as B, A, C: A stays ahead of C. */
  lemma RankExample(d: Date)
    ensures
      var a := Friend("A", "a", 5, d, "");
      var b := Friend("B", "b", 10, d, "");
      var c := Friend("C", "c", 5, d, "");
      RankByFollowers([a, b, c]) == [b, a, c]
  {
    var a := Friend("A", "a", 5, d, "");
    var b := Friend("B", "b", 10, d, "");
    var c := Friend("C", "c", 5, d, "");
    assert [a, b, c][1..] == [b, c] && [b, c][1..] == [c] && [c][1..] == [];
    assert RankByFollowers([c]) == [c];
    assert RankByFollowers([b, c]) == InsertByFollowers(b, [c]) == [b, c];
    assert InsertByFollowers(a, [c]) == [a, c];
    assert InsertByFollowers(a, [b, c]) == [b] + InsertByFollowers(a, [c]);
  }
}
