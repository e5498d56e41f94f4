# Twitter sentiment viewer: a verified model of its data layer

The system fetches a user's recent tweets and the accounts the user follows,
scores every tweet with the VADER sentiment analyser, and renders two pages:
the tweets coloured from red (score -1) to green (score 1) with the median
score, and the followed accounts ranked by their follower count. This project
models the logic between the API client and the templates:

- `Tweetie` (`tweetie.py`): the per-item loops of `fetch_tweets` and
  `fetch_following` that turn API responses into records, and the ranking
  `sorted(friends, reverse=True, key=followers)`, modelled as a stable
  insertion sort and proved to be a permutation, non-increasing, stable,
  idempotent, and the only list with those three properties.
- `Server` (`server.py`): the score-to-palette index `int(100*((score+1)/2))`,
  `add_color` as a method that writes each tweet's colour into an array of
  records in place, and the median of the sorted scores in the `tweets` route.
- `Python`: the two built-ins whose exact semantics matter: `int()` of a
  float (truncation toward zero) and list subscripting (negative indices count
  from the end, out-of-range raises `IndexError`, modelled as `None`).
- `Wrappers`: `Option` and `Result`.

The API responses are input sequences of items, the sentiment scorer is a
function parameter `string -> real` applied once per tweet, and the colour
palette built by the colour library is an input `seq<Colour>` (100 entries
wherever a property needs it).

The model follows the code where it is stricter or looser than one might
expect: the code neither rejects scores outside [-1, 1] nor clamps the index
for score 1.0, and it raises `IndexError` both for an uncolourable score and
for the median of an empty timeline; the model has no dedicated error for
either. A clamped colour lookup is modelled as the corrected variant
(see Findings). A score of 0 maps to step 50.

## Model

| member | source | states |
|---|---|---|
| Python.Int | server.py:42 | `int()` of a float truncates toward zero: for x >= 0 it is the floor, for x < 0 the ceiling |
| Python.Subscript | server.py:43 | list indexing succeeds exactly for `-len <= i < len`, negative indices count from the end, otherwise `IndexError` |
| Tweetie.TweetRecord | tweetie.py:57-66 | a tweet record copies id, date part of the creation time, retweet count and text, scores the text once, projects hashtags/urls/mentions to their `text`/`expanded_url`/`screen_name` with the same length and order, and has no colour |
| Tweetie.TweetRecords | tweetie.py:56-67 | one record per timeline item, in response order |
| Tweetie.FetchTweets | tweetie.py:52-69 | `user` is the requested name, `count` equals both the response length and the number of records, and the records are those of the response in order |
| Tweetie.FriendRecords | tweetie.py:94-103 | one friend record per account in response order, each field copied unchanged (creation time reduced to its date) |
| Tweetie.FetchFollowing | tweetie.py:92-105 | the result is the ranking of the built records: a permutation of them, non-increasing in followers, stable, and one record per account |
| Tweetie.RankByFollowersIsRanking | tweetie.py:105 | the ranking is a permutation of its input, non-increasing in followers, and keeps the input order among records with equal counts |
| Tweetie.RankByFollowersLength | tweetie.py:105 | the ranking has exactly as many records as its input |
| Tweetie.RankByFollowersOfRanked | tweetie.py:105 | ranking a list that is already non-increasing returns it unchanged |
| Tweetie.RankByFollowersIdempotent | tweetie.py:105 | ranking twice equals ranking once |
| Tweetie.RankedDeterminedByCounts | tweetie.py:105 | two non-increasing lists with the same records per follower count, in the same order, are equal |
| Tweetie.RankingIsUnique | tweetie.py:105 | any list that is a permutation, non-increasing and stable with respect to the input is the computed ranking, so it is what a stable descending `sorted` returns |
| Tweetie.RankExample | tweetie.py:105 | A(5), B(10), C(5) rank as B, A, C |
| Server.NormScoreInPalette | server.py:41-42 | every score in [-1, 1) gives an index in [0, 99] |
| Server.NormScoreIsFloor | server.py:42 | for scores from -1 on, the truncating `int()` equals the floor of 50*(score+1) |
| Server.NormScoreAtLandmarks | server.py:42 | score -1 gives index 0, score 0 gives 50, score 1 gives 100 |
| Server.NormScoreMonotone | server.py:42 | a higher score never gets a lower index |
| Server.ColourForDefinedIff | server.py:38-43 | on a 100-colour palette and a score in [-1, 1], the lookup succeeds if and only if the score is below 1, and then picks the entry at the index |
| Server.ColourForAtOne | server.py:38-43 | score 1.0 has no colour: index 100 raises `IndexError` |
| Server.ClampedIndex | server.py:41-43 | the corrected index lies in [0, 99] and equals the computed one whenever that is in range |
| Server.ClampedColourForCorrect | server.py:31-43 | the corrected lookup agrees with the code wherever the code succeeds on [-1, 1), and gives the last (green) colour for 1 and the first (red) for -1 |
| Server.ColouringChangesOnlyColour | server.py:39-45 | colouring keeps every field other than `color` and sets `color` from the score |
| Server.ColouringIdempotent | server.py:40-43 | colouring an already coloured list leaves it unchanged, since the colour depends only on the score |
| Server.AddColor | server.py:30-45 | succeeds exactly when every score has a colour and then colours every tweet in place; otherwise raises at the first uncolourable tweet with the tweets before it coloured and the rest untouched |
| Server.AddColorClamped | server.py:30-45 | the corrected `add_color`: every tweet gets the clamped colour of its score, nothing else changes |
| Server.SortedScoresCorrect | server.py:74 | the sorted scores are an ascending permutation of the scores |
| Server.AscendingUnique | server.py:74 | an ascending list is determined by its multiset of elements |
| Server.HalfIndex | server.py:76 | `int(len/2)` is the integer half of the length |
| Server.MedianDefinedIff | server.py:75-78 | the median is defined if and only if there is at least one score; an empty list raises `IndexError` |
| Server.MedianOfSorted | server.py:73-78 | odd count: the middle sorted element; even count: the mean of the two middle sorted elements |
| Server.MedianSplits | server.py:73-78 | the lower half of the sorted scores lies at or below the median and the upper half at or above it |
| Server.MedianWithinRange | server.py:73-78 | the median lies between the smallest and the largest score |
| Server.MedianPermutationInvariant | server.py:73-78 | reordering the scores does not change the median |
| Server.MedianExamples | server.py:73-78 | [0.5] gives 0.5, [0.2, 0.8] gives 0.5, [-1, 0, 1] gives 0, [] raises |
| Server.ScoresOf | server.py:73 | the list of scores has one entry per tweet, in order |
| Server.ScoresOfPermutation | server.py:73 | tweets that are a permutation of each other have scores that are a permutation of each other |
| Server.TweetsMedianPermutationInvariant | server.py:73-78 | the median of a timeline does not depend on the order of its tweets |
| Server.ColouringKeepsScores | server.py:72-73 | colouring leaves the scores, and so the median, unchanged |
| Server.Tweets | server.py:71-78 | the page data exists exactly when the timeline is non-empty and every score has a colour; then user and count are the request's and the response's, the tweets are the coloured records and the median is that of the scorer's verdicts |

## Findings

| source | as written | input that shows it | evidently intended | confidence | as-written member | corrected member |
|---|---|---|---|---|---|---|
| server.py:38-43 | the index `int(100*((score + 1)/2))` is used on the 100-entry palette without a bound | score = 1.0 gives index 100 and `colors[100]` raises `IndexError` | score 1.0 gets the last, pure green colour, as the docstring at server.py:34-36 says | medium (VADER's compound score reaches 1.0 only through rounding), not executed | Server.ColourForAtOne | Server.ClampedColourForCorrect |

`Server.AddColor` keeps the code's behaviour (and the tweets route model
`Server.Tweets` uses it); `Server.AddColorClamped` is the corrected operation.

## Left out

- `loadkeys` and `authenticate` (tweetie.py:6-28): reading a key file and OAuth through tweepy are I/O and foreign calls.
- The `user_timeline` and `get_friends` network calls (tweetie.py:52, tweetie.py:92): their results are the input sequences `response`.
- The VADER scorer (tweetie.py:54, tweetie.py:62): a foreign library, modelled as the function parameter `scorer`; nothing assumes it stays in [-1, 1].
- The palette construction `Color("red").range_to(Color("green"), 100)` (server.py:38): a foreign library, modelled as the parameter `palette`.
- The Flask application, `SearchForm`, `home`, `favicon`, the route decorators, `render_template` and the random secret key (server.py:21-28, server.py:48-65, server.py:79-89): web plumbing, file reads and randomness; `Server.Tweets` keeps only the data part of the `tweets` route.
- Both `__main__` blocks (tweetie.py:109-121, server.py:92-96): start-up and printing.
- Floating point: scores, the index computation and the median average use exact `real` arithmetic, so IEEE-754 rounding (for instance a score just below 1.0 whose scaled value rounds up to 100) is not captured.
- Python's sorting algorithm: both sorts are modelled as insertion sorts; `Tweetie.RankingIsUnique` and `Server.AscendingUnique` show that any stable descending (resp. ascending) sort gives the same list.
- Server.AddColor: the returned list is the same object as its argument; the model works on the array in place and does not model that alias beyond it.
- The unused `numpy.median` and `aiohttp.request` imports (server.py:12, server.py:19).
