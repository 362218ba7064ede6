# slack-emoji-ranking in Dafny

slack-emoji-ranking is a small batch tool. It lists the channels of a Slack
team and fetches each channel's message history. It adds up, over all
channels, how many users applied each emoji reaction, then ranks the
reactions and builds a text report from the ranking. This project models the
core of that program, `slack-emoji-ranking.go`, and proves properties of the
model:

- `SafeCounter`, the map from reaction name to running total, with `Inc`
  and `Value` (module `Counter`, a class whose map field the methods update).
- The fold of every reaction of every message of every channel into that
  counter: `GetChannelHistory` and the channel loop of `main` (module
  `History`, imperative loops proved against the recursive specification
  `Tallied`).
- The ranking order `List.Less`, `List.Swap`, and the sort `main` calls
  (module `Ranking`). The sort is an in-place insertion sort over an
  `array<Entry>` that compares only with `Less` and moves only with `Swap`.
- The end of `main`, which copies the tally into a list in the map's
  unspecified iteration order, sorts it and renders one line
  `"<k> :<name>: <value>\n"` per entry (module `Report`). A parser for the
  report text is the partner of the renderer.
- Go's 64-bit `int` and its wrap-around on overflow (module `GoInt`). Go's
  `%v` rendering of an `int` (module `Decimal`, with a parser partner).
- A worked example of the whole pipeline (module `Scenarios`).

The main results:

- `Inc` changes exactly one key. The fold gives each name its previous count
  plus the sum of the counts of the reactions bearing that name, wrapped to a
  Go `int`. It is the exact sum whenever that sum fits in an `int`.
- `Less` is a strict total order on entries. A sorted arrangement of a tally
  is therefore unique. The report is the same whatever order the Go map hands
  out its keys in.
- Parsing the report gives back exactly the ranked list it was rendered
  from.

## Model

| member | source | states |
|---|---|---|
| Counter.Get | slack-emoji-ranking.go:194 | defines Go's map read, where a missing key yields the zero value; the contracts of `Inc` and `Value` are stated with it |
| Counter.SafeCounter.constructor | slack-emoji-ranking.go:46 | a new counter holds the empty map |
| Counter.SafeCounter.Inc | slack-emoji-ranking.go:191-196 | the new map is the old one with `key` set to its old count (0 if missing) plus `cnt`, wrapped to a Go `int`; the keys become the old keys plus `key`; every other key keeps its value |
| Counter.SafeCounter.Value | slack-emoji-ranking.go:199-204 | returns the stored count of `key`, or 0 when `key` was never incremented, and changes nothing |
| GoInt.Wrap | slack-emoji-ranking.go:194 | defines Go's overflowing `int` addition: the exact sum brought back into the 64-bit range; `WrapCongruent` and `WrapUnique` state what it is |
| GoInt.WrapCongruent | slack-emoji-ranking.go:194 | the wrapped sum differs from the exact sum by a multiple of 2^64 |
| GoInt.WrapUnique | slack-emoji-ranking.go:194 | the wrapped value is the only `int` congruent to the exact value modulo 2^64 (two's-complement reduction) |
| GoInt.WrapAdd | slack-emoji-ranking.go:194 | wrapping an intermediate sum does not change the final wrapped sum, so repeated `Inc`s equal one wrap of the exact total |
| History.Bump | slack-emoji-ranking.go:95 | defines the tally after one `Inc(r.name, r.count)` on line 95, the map update of line 194 |
| History.Tallied | slack-emoji-ranking.go:91-97 | defines the tally after the fold: one `Bump` per reaction, in source order; the lemmas below state what it holds |
| History.BumpCount | slack-emoji-ranking.go:95 | one `Inc` adds the reaction's count to its own name and to no other name |
| History.Reactions | slack-emoji-ranking.go:91-93 | the reactions the fold visits are exactly those that occur on some message |
| History.TalliedKeys | slack-emoji-ranking.go:91-97 | after the fold the counter's keys are the old keys plus exactly the names that occur in the reactions |
| History.TalliedCount | slack-emoji-ranking.go:91-97 | after the fold each name's count is its old count plus the sum of the counts of the reactions bearing it, wrapped to a Go `int` |
| History.TalliedUnchanged | slack-emoji-ranking.go:91-97 | a name no reaction bears keeps its presence or absence and its count |
| History.TalliedExact | slack-emoji-ranking.go:91-97 | when the total fits in an `int`, the count is present and equals the exact arithmetic sum, so no increment is lost |
| History.TalliedAppend | slack-emoji-ranking.go:48-51 | folding two batches one after the other equals folding them together |
| History.Contribution | slack-emoji-ranking.go:75-89 | defines what one channel adds to the fold: every reaction of its messages, or nothing when the request or the decoding failed and the function returned early |
| History.AllReactions | slack-emoji-ranking.go:48-51 | defines the reactions of all channels, in the order the loop visits them |
| History.AllReactionsAppend | slack-emoji-ranking.go:48-51 | the reactions of two runs of channels are those of the first followed by those of the second |
| History.FailedChannelIgnored | slack-emoji-ranking.go:50 | a channel whose fetch or decoding failed contributes no reaction, so the tally equals that of the other channels alone |
| History.AddReactions | slack-emoji-ranking.go:93-96 | the loop over one message's reactions leaves the counter at `Tallied(old, reactions)` |
| History.GetChannelHistory | slack-emoji-ranking.go:69-100 | a failed fetch returns its error and leaves the counter untouched; otherwise it returns no error and the counter holds the old tally with every reaction of every message folded in |
| History.TallyChannels | slack-emoji-ranking.go:48-51 | the counter ends as the old tally with the reactions of all channels folded in, in channel order; errors are discarded |
| Ranking.LexLess | slack-emoji-ranking.go:178 | defines Go's `<` on strings, character by character; `LexLessIsFirstDifference` ties it to the textbook definition |
| Ranking.LexLessIsFirstDifference | slack-emoji-ranking.go:178 | the string comparison is the first-difference order: a proper prefix, or the smaller character at the first differing position |
| Ranking.LexIrreflexive | slack-emoji-ranking.go:178 | no name is less than itself |
| Ranking.LexTransitive | slack-emoji-ranking.go:178 | the name comparison is transitive |
| Ranking.LexTotal | slack-emoji-ranking.go:178 | of two different names one is less than the other |
| Ranking.LexAsymmetric | slack-emoji-ranking.go:178 | two names are never less than each other |
| Ranking.Less | slack-emoji-ranking.go:176-182 | defines `List.Less`: the higher total ranks first, and equal totals rank by name in ascending order; the lemmas below prove it a strict total order |
| Ranking.LessIrreflexive | slack-emoji-ranking.go:176-182 | no entry ranks before itself |
| Ranking.LessAsymmetric | slack-emoji-ranking.go:176-182 | two entries never rank before each other |
| Ranking.LessTransitive | slack-emoji-ranking.go:176-182 | the ranking order is transitive |
| Ranking.LessTotal | slack-emoji-ranking.go:176-182 | of two different entries one ranks before the other |
| Ranking.LessExactlyOne | slack-emoji-ranking.go:176-182 | of two entries with different names exactly one ranks first |
| Ranking.NotLessTransitive | slack-emoji-ranking.go:176-182 | "does not rank after" is transitive |
| Ranking.NotLessAntisymmetric | slack-emoji-ranking.go:176-182 | two entries neither of which ranks before the other are equal |
| Ranking.SortedStrict | slack-emoji-ranking.go:59 | in a sorted list with distinct names, each entry ranks strictly before every later one |
| Ranking.SortedUnique | slack-emoji-ranking.go:59 | two sorted lists holding the same entries are equal |
| Ranking.Swap | slack-emoji-ranking.go:172-174 | the elements at `i` and `j` are exchanged and nothing else moves |
| Ranking.Sort | slack-emoji-ranking.go:59 | the array ends sorted by `Less` and is a permutation of its old contents |
| Decimal.FormatNat | slack-emoji-ranking.go:62 | the decimal digits of a natural number, with no leading zero |
| Decimal.FormatInt | slack-emoji-ranking.go:62 | the rendering of an `int` holds no space, colon or line break |
| Decimal.ParseFormatInt | slack-emoji-ranking.go:62 | reading the rendering of an `int` gives the number back |
| Report.ListOfCount | slack-emoji-ranking.go:53-57 | the copied list holds each key's entry exactly once and nothing else |
| Report.ListOfSameEntries | slack-emoji-ranking.go:53-57 | any two copies of the same tally hold the same entries, whatever the iteration order |
| Report.ListOfPermutation | slack-emoji-ranking.go:59 | rearranging a copy of a tally, as the sort does, still gives a copy of that tally |
| Report.ListOfUnique | slack-emoji-ranking.go:53-59 | a sorted copy of a tally is unique |
| Report.BuildList | slack-emoji-ranking.go:53-57 | the list has one entry per key of the tally, carrying that key's count, with no duplicate name, for any iteration order |
| Report.LineBody | slack-emoji-ranking.go:62 | defines one report line without its line break: the position, a space, the name between colons, a space, the total, both numbers as `%v` writes them |
| Report.Line | slack-emoji-ranking.go:62 | defines one report line: `LineBody` followed by `'\n'` |
| Report.Lines | slack-emoji-ranking.go:60-63 | defines the text for a list: one `Line` per entry, in list order, numbered from a given start |
| Report.ReportText | slack-emoji-ranking.go:60-63 | defines the report text: the lines of the list numbered from 1, as `idx+1` on line 62 does |
| Report.LinesSnoc | slack-emoji-ranking.go:61-63 | appending a line for one more entry extends the text by that entry's line, numbered after the others |
| Report.Render | slack-emoji-ranking.go:60-63 | the text is the report of the array: line k is `k :name: value` for the k-th entry |
| Report.FirstSpaceOfLine | slack-emoji-ranking.go:62 | in a rendered line the first space follows the number |
| Report.LastSpaceOfLine | slack-emoji-ranking.go:62 | in a rendered line the last space precedes the value |
| Report.ParseLineBody | slack-emoji-ranking.go:62 | one rendered line reads back as its number and its entry |
| Report.SplitRendered | slack-emoji-ranking.go:60-63 | splitting the report at its line breaks gives one piece per entry |
| Report.ReportRoundTrip | slack-emoji-ranking.go:60-63 | reading the report gives back exactly the ranked list it was rendered from |
| Report.ReportDeterministic | slack-emoji-ranking.go:53-63 | the report text depends only on the tally, not on the map's iteration order |
| Report.MakeReport | slack-emoji-ranking.go:53-63 | the list is a sorted copy of the counter's tally, it is the only such list, and the text is its report |
| Report.Run | slack-emoji-ranking.go:46-63 | starting from an empty counter and folding in all channels gives the unique sorted copy of the tally of all reactions, and its report |
| Report.NoChannelsReport | slack-emoji-ranking.go:46-63 | with no channel the list and the report are empty |
| Scenarios.TwoChannelsTally | slack-emoji-ranking.go:46-51 | the channels `general` (`+1` 3, `tada` 1) and `dev` (`+1` 2) tally to `+1` 5, `tada` 1 |
| Scenarios.TwoChannelsReport | slack-emoji-ranking.go:53-63 | the sorted list of that tally is `+1` then `tada`, and the report is `1 :+1: 5` and `2 :tada: 1` |
| Scenarios.TieReport | slack-emoji-ranking.go:176-182 | equal totals rank by name: `eyes` before `tada` |
| Scenarios.TwoChannelsRun | slack-emoji-ranking.go:46-63 | anything `Run` can return for those two channels has exactly that text |

## Left out

- The HTTP requests and JSON decoding of the channel list (lines 27-44) and of each history (lines 70-89) are left out, because they are I/O. A history arrives as an already decoded `HistoryResponse`, or as the error that the request or the decoder reported.
- The `SLACK_TOKEN` lookup and `log.Fatal` (lines 22-25) are left out, because they are environment handling.
- Every `fmt.Println` (lines 32, 42, 49, 65, 77, 87) is left out, because it is output. The report text is returned instead of printed.
- `sendMessage` (lines 102-114) is left out, because it is HTTP and the program never calls it (the call on line 66 is commented out).
- The mutex of `SafeCounter` (lines 187, 192-195, 200-202) is left out, because the program calls the counter from one goroutine only.
- The response fields `Ok` and `Error` are not modelled, because the program never reads them. Likewise the `Message` fields other than `Reactions`, and `Reaction.Users`.
- The `Channel` fields are not modelled. `ID` only selects the history request on line 50, which is left out as HTTP, and `Name` is only printed on line 49. Each channel is represented by its `HistoryResponse`.
- `List.Len` (lines 168-170) has no member of its own, because it is the length of the list: `Sort` and `Render` use the array's `Length`.
- Sort: the library's algorithm is replaced by an insertion sort that uses only `Less` and `Swap`. Only the outcome is specified: sorted and a permutation. `Less` is total on entries, so every correct sort gives the same list; stability plays no part.
- The 64-bit `int` of the common platforms is assumed. On a 32-bit platform Go's `int` wraps at 2^32 instead.
- Go strings are byte sequences; the model uses sequences of characters. Go's `encoding/json` replaces invalid UTF-8 with U+FFFD when it decodes a string, so every reaction name that reaches the fold is valid UTF-8. For valid UTF-8 the byte order Go's `<` uses equals the character order `LexLess` uses, so the model's order is Go's for every name the program can see.
- ReportRoundTrip: requires names without a line break, because a name holding `'\n'` would split its report line in two.
- The program keeps one global tally for all channels, fetches the channels one after another and prints every entry, with no heading and no cut to a top N. Despite the mutex it starts no goroutine. The model does the same.
- Counts need not be non-negative: `Inc` adds any `int`, and so does the model.
