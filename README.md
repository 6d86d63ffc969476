# Pearson-correlation recommender (correlate.py), modelled in Dafny

`correlate.py` reads MovieLens-style `user item rating` records into a store.
The store maps each user id to that user's mean rating and their item-to-rating
dictionary. For every user, in ascending id order, it then looks for the
other user with the highest Pearson correlation coefficient (PCC) among those
who rated at least `threshold` items in common. It writes one line per user:
`id (peer,pcc,ncommon)` when a match exists and a bare `id` when not.

The model follows the program's three functions:

- `Ratings` (`ratings.dfy`) is **LoadData**. The first loop applies the
  records in file order: a new user starts with one rating and mean −1, and
  an existing user gets the item set, so a repeated item is overwritten. A
  second pass sets every mean to total / count. The store is a
  `map<int, Profile>` that the methods rebuild step by step. The effect of
  the records is specified by the function `Collect`.
- `Pearson` (`pearson.dfy`) is **ComputePCC**. It intersects the two key
  sets and accumulates the numerator and both denominator terms over the
  common items, in whatever order the set yields them. It then divides by
  `sqrt(den1*den2 + 1e-6)`. The sums are specified by an order-free set sum
  (`Sums`, `sums.dfy`).
- `Correlations` (`correlations.dfy`) is **ComputeCorrelations**. The outer
  loop runs over the sorted ids. The inner loop runs over the store in its
  dictionary order, skips the user itself, drops peers below the threshold,
  and replaces the kept match only on a strictly larger score. The
  selection is specified by `Best` over the sequence of scored peers, and
  `Expected` applies it to the store. `Matches` (`matches.dfy`) holds the
  scored peer and the per-user result, and `Output` (`output.dfy`) is the
  text written for each result.
- `Scenario` (`scenario.dfy`) is a worked three-user example. Loading its
  six records gives one store only, and in that store user 1's match is
  user 2 whatever order the scan visits the store in.

Arithmetic is on exact reals. The square root is a parameter `root`, of
which only `x > 0 ⇒ root(x) > 0` is assumed. The iteration order of the user
dictionary is a parameter `order`, which lists every user once. The same
order is used for every outer iteration, since it is the same dictionary.
The `%.2f` rendering of a score is a parameter `fmt`.

The selection lemmas and `Expected` are stated for any scoring function
`pcc`. The methods `BestMatch`, `WriteLines` and `ComputeCorrelations` take
that function as a ghost parameter and require it to agree with ComputePCC's
score `Pcc`. `PccOf(root)` is such a function. This keeps the facts about
the choice of match apart from the arithmetic of the score.

## Model

| member | source | states |
|---|---|---|
| Ratings.AddRecord | correlate.py:26-31 | one record's effect: an existing user gets the item set to the rating, overwriting a repeat, and a new user starts with that one rating |
| Ratings.Collect | correlate.py:19-34 | the ratings per user after applying the records in file order, one AddRecord step each |
| Ratings.Total | correlate.py:40-42 | the sum of a user's ratings, over the items of their map |
| Ratings.Mean | correlate.py:43 | the mean: the total divided by the number of ratings, defined only for a user with at least one rating |
| Ratings.ValidStore | correlate.py:38-43 | the store as the second pass leaves it: every user has at least one rating and their mean is the mean of their ratings |
| Ratings.LoadData | correlate.py:14-43 | the store's users are exactly the users of the records, each user's ratings are those the records leave in file order, every user has at least one rating and every mean is total / count |
| Ratings.LoadStep | correlate.py:26-31 | one record sets its user's rating of its item, creates the user when new, and changes no other item or user |
| Ratings.CollectNonEmpty | correlate.py:26-31 | every user in the store has at least one rating, so the mean's division is defined |
| Ratings.CollectKeys | correlate.py:26-31 | a user is in the store iff some record names it, and an item is in a user's ratings iff some record rates it for that user |
| Ratings.CollectLastWriteWins | correlate.py:28 | the stored rating of an item is the rating of the last record for that user and item |
| Ratings.SumRatings | correlate.py:40-42 | the loop over a user's ratings, in any visit order, yields their sum |
| Ratings.FillMeans | correlate.py:38-43 | the second pass keeps the users and their ratings and sets each mean to total / count |
| Pearson.Common | correlate.py:62 | the items both users rated: the intersection of their key sets |
| Pearson.Dev | correlate.py:71-73 | a user's deviation from their own mean on a rated item, `rankings[m] - avg` |
| Pearson.Num | correlate.py:66-71 | the numerator: the sum over the common items of the product of the two users' deviations from their means |
| Pearson.Den1 | correlate.py:67-72 | the first user's denominator term: the sum over the common items of their squared deviation |
| Pearson.Den2 | correlate.py:68-73 | the second user's denominator term: the sum over the common items of their squared deviation |
| Pearson.Pcc | correlate.py:75-77 | the score: the numerator divided by `root(den1*den2 + 1e-6)` |
| Pearson.AccumulateTerms | correlate.py:66-73 | the accumulation loop, in any visit order of the common items, yields the set sums of the numerator and of both denominator terms |
| Pearson.ComputePCC | correlate.py:51-79 | ncommon is the number of items both users rated, and pcc is the numerator over the root of den1*den2 + 1e-6 |
| Pearson.OverlapSymmetric | correlate.py:62-63 | the common items and their count are the same from either user, and the count is at most either user's number of ratings |
| Pearson.TermsSymmetric | correlate.py:66-73 | the numerator and the value under the root do not depend on argument order, and den1 and den2 swap |
| Pearson.DenNonNegative | correlate.py:72-73 | both denominator terms and their product are non-negative |
| Pearson.DenominatorPositive | correlate.py:75-77 | the value under the root is positive, and so is its root, for all ratings including zero variance |
| Pearson.NoOverlapZeroScore | correlate.py:66-77 | two users with no common item score 0 |
| Pearson.PccSymmetric | correlate.py:51-79 | the score is symmetric in the two users |
| Pearson.PccSign | correlate.py:77 | the score is positive or negative exactly when the numerator is |
| Correlations.Score | correlate.py:108-116 | the tuple the scan records for a peer: the peer id, the score of the user against the peer and their number of common items |
| Correlations.Scores | correlate.py:102-116 | the peers in scan order, each as its tuple |
| Correlations.Expected | correlate.py:99-116 | what the inner scan keeps for one user: Best over the store's users in scan order |
| Correlations.Best | correlate.py:99-116 | the running best after scanning the candidates in order: self and candidates below the threshold are skipped, and a candidate replaces the best when there is none yet or its score is strictly greater |
| Correlations.BestQualifies | correlate.py:99-116 | a kept match is a scored peer other than the user that meets the threshold |
| Correlations.BestNoneIff | correlate.py:99-116 | there is no match iff no scored peer other than the user meets the threshold |
| Correlations.BestIsMaximum | correlate.py:112-116 | every qualifying peer scores at most the kept match |
| Correlations.BestFirstWins | correlate.py:115-116 | the kept match is the first qualifying peer whose score no earlier peer reaches and no later peer exceeds, so the first of equal scores wins |
| Correlations.NegativeMatchKept | correlate.py:112-116 | when every qualifying peer scores below zero a negative match is still kept: nothing filters for positive scores |
| Correlations.NoMatchIffNoPeerMeetsThreshold | correlate.py:99-116 | a user has no match iff no other user of the store shares at least `threshold` items |
| Correlations.ThresholdAboveOwnCount | correlate.py:112 | a threshold above the user's own number of ratings leaves the user without a match |
| Correlations.ExpectedQualifies | correlate.py:102-116 | a match is another user of the store, shares at least `threshold` items, and carries that user's score and overlap |
| Correlations.ExpectedIsMaximum | correlate.py:102-116 | a user with a qualifying peer has a match, and no qualifying user scores higher than it |
| Correlations.ExpectedFirstWins | correlate.py:102-116 | among equal best scores the peer met first in the store's order is the match |
| Correlations.ExpectedUniqueMaximum | correlate.py:102-116 | a qualifying peer that strictly outscores every other qualifying peer is the match, for every scan order |
| Correlations.BestMatch | correlate.py:99-116 | the inner loop's result is the specified selection over the store in its own order |
| Correlations.SortedIds | correlate.py:92 | the ids in strictly ascending order, each exactly once |
| Correlations.LinesForSorted | correlate.py:92-124 | one line per user in ascending id order, each holding that user's specified match |
| Correlations.WriteLines | correlate.py:92-124 | the lines are the specified matches of the given ids, and the text is their rendering one after another |
| Correlations.ComputeCorrelations | correlate.py:82-124 | as many lines as users, strictly ascending ids covering exactly the store, each with its specified match, and the written text is their rendering |
| Output.IntToString | correlate.py:121-124 | `%d`: a minus sign for a negative number, then the decimal digits of its magnitude |
| Output.Render | correlate.py:119-124 | `%d (%d,%.2f,%d)\n` of the user, peer, score and overlap when there is a match, `%d\n` of the user when not, the score written through `fmt` |
| Output.Report | correlate.py:118-124 | the contents of the output file: each line's text, one after another |
| Output.NatToString | correlate.py:121-124 | `%d` of a natural number is a non-empty string of digits, with no leading zero |
| Output.IntToStringShape | correlate.py:121-124 | `%d` is non-empty, made of digits with a leading minus exactly for negative numbers |
| Output.IntToStringRoundTrip | correlate.py:121-124 | the integer can be read back from its `%d` text |
| Output.RenderShape | correlate.py:119-124 | a line starts with the user id, then has a newline when there is no match and " (" when there is, holds a parenthesis iff there is a match, and ends with a newline |
| Output.ReportAppend | correlate.py:118-124 | writing one more line appends its text to the file |
| Output.RenderOneNewline | correlate.py:119-124 | each line holds exactly one newline when the score rendering holds none |
| Output.ReportLineCount | correlate.py:92-124 | the file holds as many newlines as lines, one per user |
| Scenario.CollectRecords | correlate.py:19-34 | loading the example's six records in file order gives users 1 and 2 the ratings {10: 5, 20: 3} and user 3 the ratings {10: 1, 20: 1} |
| Scenario.LoadedStore | correlate.py:14-43 | any store that LoadData's contract allows for the example's records is the example store, means included |
| Scenario.StoreIsValid | correlate.py:38-43 | in the example store, every mean is the mean of that user's ratings |
| Scenario.ScenarioScores | correlate.py:51-79 | in the example store, users 1 and 2 score above zero, user 3 (constant ratings) scores zero against them, and each pair shares two items |
| Scenario.UserOneMatchesUserTwo | correlate.py:92-116 | with threshold 2, user 1's match is user 2 with both items in common, whatever the store's order |

## Left out

- Reading the file, splitting lines and calling `int` (correlate.py:16-24, 35) are not modelled. The input is the sequence of parsed records, so a malformed line's abort is outside the model.
- The `nlines` counter, the two progress messages, the timer and the closing of the output file (correlate.py:18, 33, 45-46, 87-88, 126-128) are I/O with no effect on the result.
- Floating point: the model computes with exact reals. `math.sqrt` is the parameter `root`, of which only positivity is assumed. `math.pow(x, 2)` is `x * x`, and rounding is not modelled.
- The `%.2f` rendering of the score is the parameter `fmt`. Only its lack of newlines is assumed, and only in the line-count lemmas.
- The iteration order of the user dictionary and of the sets is not modelled. The inner scan's order is the parameter `order`, and set loops pick an arbitrary next element, with every result proved the same for every order.
- The command line, the default threshold 6 and the file names (correlate.py:132-149) are not modelled.
- convection.py is not part of this model.
- Python's mutable lists in the store, which LoadData updates in place, are modelled as map values that the methods rebuild. Aliasing between them does not arise in the source and is not modelled.
- Correlations.BestMatch: it requires the user to be in the store. The source indexes the dictionary directly, so an unknown user is a caller error rather than a handled case.
- Correlations.ComputeCorrelations: the written text is returned as a string rather than written to a file. The score is passed as a ghost function that must agree with `Pcc`, and `PccOf(root)` does.
- The comments at correlate.py:84 and 96 speak of the best *positive* correlation. The code keeps the best score whatever its sign, and the model follows the code (`Correlations.NegativeMatchKept`).
