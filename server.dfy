/** The presentation half of the system: colouring each tweet by its
    sentiment score on a 100-step red-to-green palette, and the median score
    of a timeline. The palette itself (built by the colour library) is an
    input sequence of colours. */
module Server {
  import opened Wrappers
  import opened Python
  import opened Tweetie

  /** Number of steps of the red-to-green gradient. */
  const PaletteSize: nat := 100

  // ---------------------------------------------------------------------
  // From a score to a palette index
  // ---------------------------------------------------------------------

  /** `int(100*((score + 1)/2))`. */
  function NormScore(score: real): int {
    Int(100.0 * ((score + 1.0) / 2.0))
  }

  /** Every score in [-1, 1) lands on one of the palette's steps. */
  lemma NormScoreInPalette(score: real)
    requires -1.0 <= score < 1.0
    ensures 0 <= NormScore(score) < PaletteSize
  {
  }

  /** For scores from -1 on, the index is the floor of the scaled score:
      truncation and floor agree there. */
  lemma NormScoreIsFloor(score: real)
    requires -1.0 <= score
    ensures NormScore(score) == (50.0 * (score + 1.0)).Floor
  {
  }

  /** -1 maps to the first step, 0 to step 50, and 1 to index 100, one past
      the last step. */
  lemma NormScoreAtLandmarks()
    ensures NormScore(-1.0) == 0
    ensures NormScore(0.0) == 50
    ensures NormScore(1.0) == PaletteSize
  {
  }

  /** A higher score never gets a lower index. */
  lemma NormScoreMonotone(s1: real, s2: real)
    requires s1 <= s2
    ensures NormScore(s1) <= NormScore(s2)
  {
    IntMonotone(100.0 * ((s1 + 1.0) / 2.0), 100.0 * ((s2 + 1.0) / 2.0));
  }

  /** `colors[norm_score]`, `None` when it raises `IndexError`. */
  function ColourFor(score: real, palette: seq<Colour>): Option<Colour> {
    Subscript(palette, NormScore(score))
  }

  /** On a 100-step palette and a score in [-1, 1], the lookup succeeds
      exactly when the score is below 1, and then picks step `NormScore`. */
  lemma ColourForDefinedIff(score: real, palette: seq<Colour>)
    requires |palette| == PaletteSize
    requires -1.0 <= score <= 1.0
    ensures ColourFor(score, palette).Some? <==> score < 1.0
    ensures score < 1.0 ==> ColourFor(score, palette) == Some(palette[NormScore(score)])
  {
    NormScoreMonotone(score, 1.0);
    if score < 1.0 {
      NormScoreInPalette(score);
    }
  }

  /** The most positive score has no colour: index 100 is out of range. */
  lemma ColourForAtOne(palette: seq<Colour>)
    requires |palette| == PaletteSize
    ensures ColourFor(1.0, palette) == None
  {
    NormScoreAtLandmarks();
  }

  /** `NormScore` clamped into the palette's index range `[0, PaletteSize - 1]`. */
  function ClampedIndex(score: real): (i: nat)
    ensures i < PaletteSize
    ensures 0 <= NormScore(score) < PaletteSize ==> i == NormScore(score)
  {
    var n := NormScore(score);
    if n < 0 then 0 else if n >= PaletteSize then PaletteSize - 1 else n
  }

  /** The intended mapping: the score's step, clamped into the palette. */
  function ClampedColourFor(score: real, palette: seq<Colour>): Colour
    requires |palette| == PaletteSize
  {
    palette[ClampedIndex(score)]
  }

  /** The clamp changes only the boundary: it agrees with the lookup as
      written wherever that succeeds on a score in [-1, 1), and maps 1 to
      the palette's last (green) step. */
  lemma ClampedColourForCorrect(score: real, palette: seq<Colour>)
    requires |palette| == PaletteSize
    requires -1.0 <= score <= 1.0
    ensures score < 1.0 ==> ColourFor(score, palette) == Some(ClampedColourFor(score, palette))
    ensures score == 1.0 ==> ClampedColourFor(score, palette) == palette[PaletteSize - 1]
    ensures score == -1.0 ==> ClampedColourFor(score, palette) == palette[0]
  {
    ColourForDefinedIff(score, palette);
    NormScoreAtLandmarks();
    if score < 1.0 {
      NormScoreInPalette(score);
    }
  }

  // ---------------------------------------------------------------------
  // add_color
  // ---------------------------------------------------------------------

  /** Every tweet's score has a colour in `palette`. */
  predicate AllColourable(ts: seq<Tweet>, palette: seq<Colour>) {
    forall i :: 0 <= i < |ts| ==> ColourFor(ts[i].score, palette).Some?
  }

  /** The tweets with their "color" key set from their score, and nothing
      else changed. */
  function Colouring(ts: seq<Tweet>, palette: seq<Colour>): (r: seq<Tweet>)
    requires AllColourable(ts, palette)
    ensures |r| == |ts|
  {
    seq(|ts|, i requires 0 <= i < |ts| => ts[i].(color := ColourFor(ts[i].score, palette)))
  }

  /** Colouring keeps the order and every field but the colour. */
  lemma ColouringChangesOnlyColour(ts: seq<Tweet>, palette: seq<Colour>, i: nat)
    requires AllColourable(ts, palette)
    requires i < |ts|
    ensures var c := Colouring(ts, palette)[i];
      && c.id == ts[i].id && c.created == ts[i].created && c.retweeted == ts[i].retweeted
      && c.text == ts[i].text && c.score == ts[i].score && c.hashtags == ts[i].hashtags
      && c.urls == ts[i].urls && c.mentions == ts[i].mentions
      && c.color.Some? && c.color == ColourFor(ts[i].score, palette)
  {
  }

  /** Colouring an already coloured list changes nothing: the colour depends
      on the score alone. */
  lemma ColouringIdempotent(ts: seq<Tweet>, palette: seq<Colour>)
    requires AllColourable(ts, palette)
    ensures AllColourable(Colouring(ts, palette), palette)
    ensures Colouring(Colouring(ts, palette), palette) == Colouring(ts, palette)
  {
  }

  /** How a run of `add_color` ends: every tweet coloured, or `IndexError`
      at the first tweet whose index falls outside the palette. */
  datatype ColourOutcome = Coloured | IndexError(position: nat)

  /** `add_color`: writes the colour of each tweet's score into the tweet,
      in list order. A tweet whose index is out of range raises `IndexError`
      there; the tweets before it are already coloured and the rest are left
      as they were. */
  method AddColor(tweets: array<Tweet>, palette: seq<Colour>) returns (outcome: ColourOutcome)
    modifies tweets
    ensures outcome.Coloured? <==> AllColourable(old(tweets[..]), palette)
    ensures outcome.Coloured? ==> tweets[..] == Colouring(old(tweets[..]), palette)
    ensures outcome.IndexError? ==>
      var p := outcome.position;
      && p < tweets.Length
      && ColourFor(old(tweets[p]).score, palette).None?
      && AllColourable(old(tweets[..p]), palette)
      && tweets[..p] == Colouring(old(tweets[..p]), palette)
      && tweets[p..] == old(tweets[p..])
  {
    var i := 0;
    while i < tweets.Length
      invariant 0 <= i <= tweets.Length
      invariant AllColourable(old(tweets[..i]), palette)
      invariant tweets[..i] == Colouring(old(tweets[..i]), palette)
      invariant tweets[i..] == old(tweets[i..])
    {
      var score := tweets[i].score;
      var normScore := NormScore(score);
      var colour := Subscript(palette, normScore);
      if colour.None? {
        return IndexError(i);
      }
      assert old(tweets[..i + 1]) == old(tweets[..i]) + [old(tweets[i])];
      tweets[i] := tweets[i].(color := colour);
      i := i + 1;
    }
    assert tweets[..] == tweets[..i] && old(tweets[..]) == old(tweets[..i]);
    return Coloured;
  }

  /** The corrected `add_color`: indices past the palette are clamped to its
      last step, so every tweet is coloured. */
  method AddColorClamped(tweets: array<Tweet>, palette: seq<Colour>)
    requires |palette| == PaletteSize
    modifies tweets
    ensures forall i :: 0 <= i < tweets.Length ==>
      tweets[i] == old(tweets[i]).(color := Some(ClampedColourFor(old(tweets[i]).score, palette)))
  {
    for i := 0 to tweets.Length
      invariant forall j :: 0 <= j < i ==>
        tweets[j] == old(tweets[j]).(color := Some(ClampedColourFor(old(tweets[j]).score, palette)))
      invariant forall j :: i <= j < tweets.Length ==> tweets[j] == old(tweets[j])
    {
      tweets[i] := tweets[i].(color := Some(ClampedColourFor(tweets[i].score, palette)));
    }
  }

  // ---------------------------------------------------------------------
  // Median of the scores
  // ---------------------------------------------------------------------

  predicate Ascending(s: seq<real>) {
    forall i, j :: 0 <= i < j < |s| ==> s[i] <= s[j]
  }

  function InsertScore(x: real, t: seq<real>): seq<real> {
    if t == [] || x <= t[0] then [x] + t else [t[0]] + InsertScore(x, t[1..])
  }

  /** `sorted(all_scores)`, written as an insertion sort. */
  function SortedScores(s: seq<real>): seq<real> {
    if s == [] then [] else InsertScore(s[0], SortedScores(s[1..]))
  }

  lemma {:induction false} InsertScorePermutes(x: real, t: seq<real>)
    ensures multiset(InsertScore(x, t)) == multiset{x} + multiset(t)
  {
    if t != [] && x > t[0] {
      InsertScorePermutes(x, t[1..]);
      assert t == [t[0]] + t[1..];
    }
  }

  lemma {:induction false} InsertScoreKeepsAscending(x: real, t: seq<real>)
    requires Ascending(t)
    ensures Ascending(InsertScore(x, t))
  {
    if t != [] && x > t[0] {
      InsertScoreKeepsAscending(x, t[1..]);
      InsertScorePermutes(x, t[1..]);
      var r := InsertScore(x, t[1..]);
      forall j | 0 <= j < |r| ensures t[0] <= r[j] {
        assert r[j] in multiset(r);
        assert r[j] == x || r[j] in multiset(t[1..]);
      }
    }
  }

  /** The sorted scores are an ascending permutation of the scores. */
  lemma {:induction false} SortedScoresCorrect(s: seq<real>)
    ensures Ascending(SortedScores(s))
    ensures multiset(SortedScores(s)) == multiset(s)
    ensures |SortedScores(s)| == |s|
  {
    if s != [] {
      SortedScoresCorrect(s[1..]);
      InsertScorePermutes(s[0], SortedScores(s[1..]));
      InsertScoreKeepsAscending(s[0], SortedScores(s[1..]));
      assert s == [s[0]] + s[1..];
    }
    assert |multiset(SortedScores(s))| == |multiset(s)|;
  }

  /** An ascending list is determined by its multiset of elements. */
  lemma {:induction false} AscendingUnique(t: seq<real>, u: seq<real>)
    requires Ascending(t) && Ascending(u)
    requires multiset(t) == multiset(u)
    ensures t == u
    decreases |t|
  {
    assert |t| == |multiset(t)| == |multiset(u)| == |u|;
    if t != [] {
      assert t[0] in multiset(u) && u[0] in multiset(t);
      assert t[0] == u[0];
      assert t == [t[0]] + t[1..] && u == [u[0]] + u[1..];
      assert multiset(t[1..]) == multiset(t) - multiset{t[0]};
      assert multiset(u[1..]) == multiset(u) - multiset{u[0]};
      AscendingUnique(t[1..], u[1..]);
    }
  }

  /** The middle of an already sorted list as the route computes it: the
      middle element (odd count) or the mean of the two middle ones (even
      count), with Python's indexing, so an empty list raises `IndexError`
      (`None`). */
  function Middle(sorted: seq<real>): Option<real> {
    var half := Int(|sorted| as real / 2.0);
    if |sorted| % 2 != 0 then
      Subscript(sorted, half)
    else
      match (Subscript(sorted, half - 1), Subscript(sorted, half))
      case (Some(lo), Some(hi)) => Some((lo + hi) / 2.0)
      case _ => None
  }

  /** The median of the scores: the middle of `sorted(all_scores)`. */
  function Median(scores: seq<real>): Option<real> {
    Middle(SortedScores(scores))
  }

  /** `int(len(all_scores)/2)` is the integer half of the length. */
  lemma HalfIndex(n: nat)
    ensures Int(n as real / 2.0) == n / 2
  {
    var q, r := n / 2, n % 2;
    assert n == 2 * q + r;
    assert n as real / 2.0 == q as real + r as real / 2.0;
  }

  /** The median exists exactly for a non-empty list. */
  lemma MedianDefinedIff(scores: seq<real>)
    ensures Median(scores).Some? <==> |scores| > 0
  {
    SortedScoresCorrect(scores);
    HalfIndex(|scores|);
  }

  /** The middle of a non-empty list, written out. */
  lemma MiddleFormula(t: seq<real>)
    requires |t| > 0
    ensures var n := |t|;
      && (n % 2 == 1 ==> Middle(t) == Some(t[n / 2]))
      && (n % 2 == 0 ==> Middle(t) == Some((t[n / 2 - 1] + t[n / 2]) / 2.0))
  {
    HalfIndex(|t|);
  }

  /** The textbook median of the sorted scores. */
  lemma MedianOfSorted(scores: seq<real>)
    requires |scores| > 0
    ensures var t, n := SortedScores(scores), |scores|;
      && |t| == n
      && (n % 2 == 1 ==> Median(scores) == Some(t[n / 2]))
      && (n % 2 == 0 ==> Median(scores) == Some((t[n / 2 - 1] + t[n / 2]) / 2.0))
  {
    var t := SortedScores(scores);
    SortedScoresCorrect(scores);
    assert Median(scores) == Middle(t);
    MiddleFormula(t);
  }

  /** The middle of an ascending list splits it: the lower half (rounded up)
      lies at or below it and the upper half at or above it. */
  lemma MiddleSplits(t: seq<real>)
    requires |t| > 0 && Ascending(t)
    ensures Middle(t).Some?
    ensures var n, m := |t|, Middle(t).value;
      && (forall i :: 0 <= i < (n + 1) / 2 ==> t[i] <= m)
      && (forall i :: n / 2 <= i < n ==> m <= t[i])
  {
    MiddleFormula(t);
    var n := |t|;
    var m := Middle(t).value;
    var lo, hi := t[(n - 1) / 2], t[n / 2];
    assert lo <= m <= hi by {
      if n % 2 == 0 {
        assert t[n / 2 - 1] <= t[n / 2];
      }
    }
    forall i | 0 <= i < (n + 1) / 2 ensures t[i] <= m {
      assert i <= (n - 1) / 2;
      assert t[i] <= lo;
    }
    forall i | n / 2 <= i < n ensures m <= t[i] {
      assert hi <= t[i];
    }
  }

  /** The median splits the sorted scores: the lower half (rounded up) lies
      at or below it and the upper half at or above it. */
  lemma MedianSplits(scores: seq<real>)
    requires |scores| > 0
    ensures Median(scores).Some?
    ensures var t, n, m := SortedScores(scores), |scores|, Median(scores).value;
      && |t| == n
      && (forall i :: 0 <= i < (n + 1) / 2 ==> t[i] <= m)
      && (forall i :: n / 2 <= i < n ==> m <= t[i])
  {
    SortedScoresCorrect(scores);
    MiddleSplits(SortedScores(scores));
  }

  /** The median lies between the smallest and the largest score. */
  lemma MedianWithinRange(scores: seq<real>)
    requires |scores| > 0
    ensures Median(scores).Some?
    ensures exists i :: 0 <= i < |scores| && scores[i] <= Median(scores).value
    ensures exists j :: 0 <= j < |scores| && Median(scores).value <= scores[j]
  {
    MedianDefinedIff(scores);
    MedianSplits(scores);
    var t := SortedScores(scores);
    SortedScoresCorrect(scores);
    assert t[0] in multiset(scores) && t[|t| - 1] in multiset(scores);
    var i :| 0 <= i < |scores| && scores[i] == t[0];
    var j :| 0 <= j < |scores| && scores[j] == t[|t| - 1];
  }

  /** Reordering the scores does not change the median. */
  lemma MedianPermutationInvariant(s1: seq<real>, s2: seq<real>)
    requires multiset(s1) == multiset(s2)
    ensures Median(s1) == Median(s2)
  {
    assert SortedScores(s1) == SortedScores(s2) by {
      SortedScoresCorrect(s1);
      SortedScoresCorrect(s2);
      AscendingUnique(SortedScores(s1), SortedScores(s2));
    }
  }

  lemma MedianExamples()
    ensures Median([0.5]) == Some(0.5)
    ensures Median([0.2, 0.8]) == Some(0.5)
    ensures Median([-1.0, 0.0, 1.0]) == Some(0.0)
    ensures Median([]) == None
  {
    assert [0.2, 0.8][1..] == [0.8];
    assert SortedScores([0.2, 0.8]) == [0.2, 0.8];
    assert [-1.0, 0.0, 1.0][1..] == [0.0, 1.0] && [0.0, 1.0][1..] == [1.0];
    assert SortedScores([0.0, 1.0]) == [0.0, 1.0];
    assert SortedScores([-1.0, 0.0, 1.0]) == [-1.0, 0.0, 1.0];
  }

  /** `[t['score'] for t in tweets]`. */
  function ScoresOf(ts: seq<Tweet>): (r: seq<real>)
    ensures |r| == |ts| && forall i :: 0 <= i < |ts| ==> r[i] == ts[i].score
  {
    seq(|ts|, i requires 0 <= i < |ts| => ts[i].score)
  }

  lemma ScoresOfAppend(a: seq<Tweet>, b: seq<Tweet>)
    ensures ScoresOf(a + b) == ScoresOf(a) + ScoresOf(b)
  {
  }

  /** Tweets that are a permutation of each other have scores that are. */
  lemma {:induction false} ScoresOfPermutation(a: seq<Tweet>, b: seq<Tweet>)
    requires multiset(a) == multiset(b)
    ensures multiset(ScoresOf(a)) == multiset(ScoresOf(b))
    decreases |a|
  {
    assert |a| == |multiset(a)| == |multiset(b)| == |b|;
    if a != [] {
      assert a[0] in multiset(b);
      var j :| 0 <= j < |b| && b[j] == a[0];
      var rest := b[..j] + b[j + 1..];
      assert b == b[..j] + [b[j]] + b[j + 1..];
      assert a == [a[0]] + a[1..];
      assert multiset(rest) == multiset(b) - multiset{a[0]};
      ScoresOfPermutation(a[1..], rest);
      ScoresOfAppend(b[..j] + [b[j]], b[j + 1..]);
      ScoresOfAppend(b[..j], [b[j]]);
      ScoresOfAppend(b[..j], b[j + 1..]);
      ScoresOfAppend([a[0]], a[1..]);
    }
  }

  /** The median of the tweets' scores does not depend on their order. */
  lemma TweetsMedianPermutationInvariant(a: seq<Tweet>, b: seq<Tweet>)
    requires multiset(a) == multiset(b)
    ensures Median(ScoresOf(a)) == Median(ScoresOf(b))
  {
    ScoresOfPermutation(a, b);
    MedianPermutationInvariant(ScoresOf(a), ScoresOf(b));
  }

  /** Colouring does not touch the scores, so the median is the same
      before and after it. */
  lemma ColouringKeepsScores(ts: seq<Tweet>, palette: seq<Colour>)
    requires AllColourable(ts, palette)
    ensures ScoresOf(Colouring(ts, palette)) == ScoresOf(ts)
  {
  }

  // ---------------------------------------------------------------------
  // The data behind the tweets page
  // ---------------------------------------------------------------------

  /** What the tweets page is rendered from. */
  datatype TweetsPage = TweetsPage(record: Profile, median: real)

  /** Why the page cannot be built: the colour lookup or the median raised. */
  datatype PageError = ColourIndexError(position: nat) | EmptyTimeline

  /** The data part of the `tweets` route: fetch, colour in place, then the
      median of the coloured tweets' scores. */
  method Tweets(name: string, response: seq<Status>, scorer: string -> real, palette: seq<Colour>)
    returns (r: Result<TweetsPage, PageError>)
    ensures r.Ok? <==> |response| > 0 && AllColourable(TweetRecords(response, scorer), palette)
    ensures r == Err(EmptyTimeline) <==> |response| == 0
    ensures r.Ok? ==>
      && r.value.record.user == name
      && r.value.record.count == |response|
      && r.value.record.tweets == Colouring(TweetRecords(response, scorer), palette)
      && Median(ScoresOf(TweetRecords(response, scorer))) == Some(r.value.median)
  {
    var profile := FetchTweets(name, response, scorer);
    var tweets := new Tweet[|profile.tweets|](i requires 0 <= i < |profile.tweets| => profile.tweets[i]);
    assert tweets[..] == profile.tweets;
    var outcome := AddColor(tweets, palette);
    if outcome.IndexError? {
      return Err(ColourIndexError(outcome.position));
    }
    var coloured := tweets[..];
    ColouringKeepsScores(profile.tweets, palette);
    MedianDefinedIff(ScoresOf(coloured));
    var median := Median(ScoresOf(coloured));
    if median.None? {
      return Err(EmptyTimeline);
    }
    return Ok(TweetsPage(profile.(tweets := coloured), median.value));
  }
}
