# clean-twitter: keyword filter and remover, modelled in Dafny

clean.py fetches a user's recent timeline and keeps the posts whose text
matches any of the words given with `--words`. With `--nuke` it then deletes
each kept post, or un-retweets it when it is a retweet. With
`--delete-tweets` or `--delete-retweets` it acts on tweet ids given directly
with `--tweets-ids`. Errors from the removal calls are swallowed one call at
a time.

The model has three modules:

- `Text` (text.dfy): ASCII lower-casing (`LowerChar`, `Lower`) and a literal
  substring search (`Contains`), proved equal to "the word occurs at some
  position" (`ContainsIff`). `ContainsIgnoreCase` folds both sides and then
  searches.
- `KeywordFilter` (keyword_filter.dfy): a timeline row is `Post(id,
  createdAt, retweeted, text)`, and the table is a `seq<Post>`. `Filter` is
  `filter_data_frame`. The pattern `"|".join(words)` is read as an alternation
  of literal words (`Alternatives`, `SearchAlternatives`). This reading is
  faithful when no word holds a regular expression metacharacter, and
  `LiteralWords` states that condition as a precondition. `KeptIndices`
  describes the kept rows independently, as the increasing list of matching
  positions.
- `Remover` (remover.dfy): the remote API is the class `Api`. It records
  every call in `trace` (`Destroy(id)` or `Unretweet(id)`) and every answer
  in `responses`. Each answer (`Ok` or `TweepError`) is chosen
  nondeterministically, so what is proved about `Nuke` and `DeleteDirect`
  holds whatever the server answers. `DeleteTweet` and `UnretweetTweet`
  discard the answer, as the `try`/`except TweepError: pass` blocks do.
  `RemovalCalls` and `DirectCalls` are the call sequences that the loops are
  proved to produce.

Two behaviours of the code that are easy to miss:

- An empty word list keeps every row: `"|".join([])` is the empty
  pattern, and it matches every text (`NoWordsKeepsEverything`). An empty word
  among others matches every text for the same reason. The command line only
  guards against an absent or empty `--words` list.
- Words are not split at commas. Each command-line word is one alternative,
  commas included.

## Model

| member | source | states |
|---|---|---|
| Text.LowerChar | clean.py:60 | `case=False`, ASCII part: the folded character is never an upper-case letter, only upper-case letters change, and the k-th upper-case letter becomes the k-th lower-case letter |
| Text.SameFold | clean.py:60 | two characters fold alike exactly when they are equal or are the two cases of one ASCII letter, so "B" matches "b" and not "c" |
| Text.Lower | clean.py:60 | `case=False` applied to a whole text: the length is kept and no upper-case letter is left; `LowerFoldsEach` states that each character is kept or replaced by the other case of the same ASCII letter |
| Text.LowerFoldsEach | clean.py:60 | each character of the folded text is the original character or its lower-case counterpart, which with the absence of upper-case letters fixes the fold completely |
| Text.Contains | clean.py:60 | the literal search of one word: the empty word is always found and a found word is no longer than the text; `ContainsIff` characterises it fully |
| Text.ContainsIgnoreCase | clean.py:60 | the case-insensitive search of one word: the empty word is always found and a found word is no longer than the text; `ContainsIgnoreCaseIff` characterises it fully |
| Text.ContainsIff | clean.py:60 | the substring search succeeds exactly when the word occurs at some position of the text |
| Text.ContainsIgnoreCaseIff | clean.py:60 | the case-insensitive search succeeds exactly when the folded word occurs in the folded text |
| Text.EmptyWordOccurs | clean.py:60 | the empty word, the pattern of an empty join, is found in every text |
| Text.IgnoreCaseOfLowered | clean.py:60 | folding the text before a case-insensitive search does not change the outcome |
| KeywordFilter.Alternatives | clean.py:60 | the alternatives of the words joined with a vertical bar: never empty, every word is one, and the empty word is an alternative only when it is one of the words or the join is empty; `MatchesIff` states what the alternation means for every word list |
| KeywordFilter.SearchAlternatives | clean.py:60 | the search of the joined pattern: it fails when there are no alternatives and succeeds whenever the empty word is one; `SearchAlternativesIff` characterises it fully |
| KeywordFilter.Matches | clean.py:60 | the boolean mask of `str.contains(..., case=False)` for one row: with no words every row matches; `MatchesIff` characterises it fully |
| KeywordFilter.SearchAlternativesIff | clean.py:60 | the pattern made by joining the words with a vertical bar matches exactly when some alternative occurs in the text, ignoring case |
| KeywordFilter.Filter | clean.py:59-60 | the filter never returns more rows than it is given |
| KeywordFilter.KeptIndices | clean.py:59-60 | the matching positions are in range and strictly increasing, and a position is listed exactly when its row matches |
| KeywordFilter.FilterSound | clean.py:59-60 | every returned row matches: with `MatchesIff`, it contains at least one of the words, ignoring case, or no words were given |
| KeywordFilter.FilterKeepsExactlyMatching | clean.py:59-60 | an input row is in the output exactly when it matches, so every dropped row contains none of the words |
| KeywordFilter.FilterSelectsMatching | clean.py:60 | the output is the input at the matching positions: a subsequence in the original order, with every kept row unchanged |
| KeywordFilter.FilterOfMatchingIsIdentity | clean.py:59-60 | a table whose every row matches passes the filter unchanged |
| KeywordFilter.FilterIdempotent | clean.py:59-60 | filtering the output again with the same words gives the same output |
| KeywordFilter.MatchesIff | clean.py:60 | a row matches exactly when no words were given or some word occurs in its text, ignoring case |
| KeywordFilter.NoWordsKeepsEverything | clean.py:60 | with no words the joined pattern is empty and every row is kept |
| KeywordFilter.MatchesOneWord | clean.py:60 | with one word, a row matches exactly when its folded text contains the folded word |
| KeywordFilter.ScenarioBuy | clean.py:59-60 | on the texts "hello world", "buy now!!", "CATalog sale", "hi", "BUY stuff", the word "buy" keeps exactly the second and fifth rows |
| KeywordFilter.ScenarioCat | clean.py:59-60 | on the same texts, "cat" keeps exactly "CATalog sale": the search is by substring, not by whole word |
| Remover.Api.DestroyStatus | clean.py:65 | a destroy call is appended to the trace, and its answer, success or error, to the responses |
| Remover.Api.UnretweetStatus | clean.py:72 | an unretweet call is appended to the trace, and its answer to the responses |
| Remover.DeleteTweet | clean.py:63-67 | exactly one `Destroy(id)` call is made, whatever the answer, and no error escapes |
| Remover.UnretweetTweet | clean.py:70-74 | exactly one `Unretweet(id)` call is made, whatever the answer, and no error escapes |
| Remover.Nuke | clean.py:77-85 | returns exactly the filtered rows, and the calls made are exactly `RemovalCalls` of those rows, in order, whatever each call answers, so a failing call neither stops the loop nor skips a later row |
| Remover.RemovalCallsDispatch | clean.py:80-84 | nuke makes one call per filtered row, in row order: `Unretweet(id)` for a retweet and `Destroy(id)` otherwise |
| Remover.RemovalFor | clean.py:81-84 | the call for one row has the row's id and is an unretweet exactly when the row is a retweet; `RemovalCallsDispatch` extends this to all rows |
| Remover.NeverBoth | clean.py:80-84 | when ids are unique, a retweet is never destroyed and any other row is never unretweeted |
| KeywordFilter.FilterKeepsIdsUnique | clean.py:59-60 | filtering a table whose ids are unique leaves them unique |
| Remover.NukeNeverBoth | clean.py:77-84 | when the fetched timeline has unique ids, no row that nuke removes is both destroyed and unretweeted |
| Remover.DeleteDirect | clean.py:104-117 | with no ids, only the "You need to provide a list of ... IDs." line is printed and no call is made; otherwise it prints the start and "Done" lines and makes exactly the `DirectCalls` of the ids, whatever each call answers |
| Remover.DirectModes | clean.py:104-117 | the two direct branches run one after the other: the trace grows by the `--delete-tweets` calls and then by the `--delete-retweets` calls, and the printed lines are those of the tweets branch followed by those of the retweets branch, for every combination of flags and ids |
| Remover.BothModesOrder | clean.py:106-117 | with both direct flags, every id is destroyed, in order, before any id is unretweeted, in order |
| Remover.DirectCallsExact | clean.py:106-117 | in `--delete-tweets` mode each id gets exactly one `Destroy`, in the given order, and there is no `Unretweet`; `--delete-retweets` is the mirror image |

## Left out

- Argument parsing and the usage message with exit status 1 when no argument is given (clean.py:15-41) are not modelled. They are the argparse library, not logic of this program.
- OAuth, API construction and the credential constants (clean.py:7-12, 44-47) are not modelled: they are configuration and calls into tweepy. `Api` has no credentials.
- Timeline fetching through `tweepy.Cursor(...).items(limit)` (clean.py:50-56) is not modelled. `Nuke` takes the fetched rows as its `timeline` parameter, with at most `Limit` (3200) rows.
- Remover.Nuke: an error raised by the timeline fetch (clean.py:51-54, reached from clean.py:78) is not caught and ends the run before any removal call. `Nuke` does not capture this, because it is given the rows already fetched.
- The order in which the command line runs its branches (clean.py:92-117) is modelled only for the two direct branches (`DirectModes`). That `--show` and `--nuke` run before them in the same invocation is not modelled.
- The `--show` and `--nuke` branches of the command line (clean.py:92-102) are the fetch, `Filter` or `Nuke`, and printing. Each branch fetches the timeline again, and the model does not relate the two fetches.
- Printing a DataFrame, and the DataFrame's index and column layout, are left out. The table is a plain sequence of rows.
- The outcome of a remote call is not modelled beyond the nondeterministic `Ok`/`TweepError` answer. The remote state is not modelled.
- Ids are one type, `TweetId = int`. The ids given with `--tweets-ids` are strings that tweepy passes on unchanged, and a malformed id only makes the call fail, which is swallowed anyway.
- `created_at` is an opaque integer. The filter never reads it.
- An absent `--tweets-ids` and an empty one are both modelled as the empty sequence. Both are falsy in the source's test.
- KeywordFilter.Filter: it is faithful only for words without regular expression metacharacters (`LiteralWords`). Full `re` semantics are not modelled.
- KeywordFilter.Filter: case is folded for the ASCII letters only. Unicode case folding, as `re.IGNORECASE` does it, is not modelled.
