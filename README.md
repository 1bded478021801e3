# kovplus in Dafny

A model of the kovplus generation engine (`src/`): a context-weighted Markov text generator.

- **WordBag** interns strings as integer ids. It only ever appends. Id 0 holds the empty string from construction on, and id -1 reads as the empty string.
- **Sentence**, **SentenceView** and **SentenceCursor** turn text into ids. A sentence keeps a list of ids over a shared bag; a view is an unclamped `[start, end)` window over it; a cursor walks a view with `has`/`has_next` lookahead.
- **KovPlusChain** ingests sentences into an index `from -> to -> assessors` and into per-id occurrence counts. Each assessor stores a strength and the window of ids ending at `from`. A query context is scored against an assessor by comparing the two right-aligned.
- **KovPlusQuery** holds a growing context mirrored in a result sentence. `make_next` sums the tallies of every recorded successor of the last id and picks one by cumulative-sum selection with a uniform draw. `make_up_to` repeats that up to a length limit.

Modules follow the source:

- `outcomes.dfy`: the failure outcomes.
- `fields.dfy`: the `getline` field split and the space join.
- `sentence.dfy`: classes `WordBag`, `Sentence`, `SentenceView` and `SentenceCursor`.
- `scoring.dfy`: the `assess` score, per-successor tallies, candidate lists and the selection rule, as functions.
- `ingestion.dfy`: what one `add_sentence` does to the index and the counts, as functions of the sentence's ids.
- `kovplus.dfy`: classes `KovPlusChain` and `KovPlusQuery`.

Where the C++ mutates state or loops (`add`, the split constructor, `str`, `assess`, `get_assessments`, `add_sentence`, `make_next`, `make_up_to`), the model is a method, with loop invariants where the C++ loops. Each such method is proved against reference functions: `Intern` and `Interned` in `sentence.dfy`, `Split` and `JoinWith` in `fields.dfy`, and the functions of `scoring.dfy` and `ingestion.dfy`. The lemmas about those functions carry the properties.

Two failure behaviours of the C++ become explicit outcomes in the model:

- **The out-of-range read in `assess`** is undefined behaviour. The loop at `src/kovplus.cpp:23-31` runs the context offset up to `width - 1`. It reads one past the end of both sequences exactly when the stored context is shorter than the window width. Contexts stored for positions `i < width - 1` have only `i + 1 < width` ids, so this happens in practice. The model returns `Err(ReadPastEnd)` in that case, and the failure propagates through `get_assessment`, `get_assessments`, `make_next` and `make_up_to`.
- **Lookups that throw** are defined behaviour: `at` on an unknown id or string throws `std::out_of_range`. The model returns `Err(UnknownToken)` in their place.

`back()` on an empty context is a precondition (`|from| > 0`).

Two details of the code that the model keeps:

- **Weight distance.** The weight's distance is `|W - exp_i|`, where `exp_i` is the context offset (`src/kovplus.cpp:25`). The model keeps the weight abstract and passes `width - k`.
- **Unknown `to` word.** The string-target `get_assessment` overloads call `bag.get(to)` (`src/kovplus.hpp:48-54`), which throws `std::out_of_range` for an unknown word; the model returns UnknownToken there.

## Model

| member | source | states |
|---|---|---|
| Fields.Split | src/sentence.cpp:44-47 | no field holds the separator; the split is empty exactly when the text is empty |
| Fields.JoinSplit | src/sentence.cpp:44-47 | joining the fields with the separator gives back the text, minus one trailing separator (a separator always ends a field) |
| Fields.SplitJoin | src/sentence.cpp:44-47 | splitting the joined words gives the words back when no word holds the separator and the last word is not empty |
| Fields.SplitCount | src/sentence.cpp:44-47 | field count = number of separators, plus one when the text after the last separator is non-empty (empty fields between separators kept, none after a trailing separator) |
| Fields.JoinWithSnoc | src/sentence.cpp:53-59 | each further word is preceded by exactly one separator, with none before the first |
| Sentences.WordBag.constructor | src/sentence.cpp:5-7 | a fresh bag is exactly `[""]` with `"" -> 0`, so the first new string gets id 1 |
| Sentences.WordBag.GetText | src/sentence.cpp:9-15 | succeeds exactly for -1 or an id inside the list; -1 gives `""`; the text read maps back to the id; otherwise UnknownToken |
| Sentences.WordBag.GetId | src/sentence.cpp:17-19 | succeeds exactly for a string in the list and returns its position; fails without inserting otherwise |
| Sentences.WordBag.GetIds | src/kovplus.cpp:101-103 | resolving each word in turn succeeds exactly when every word is known, giving one id per word pointing at that word |
| Sentences.WordBag.GetTexts | src/sentence.cpp:53-59 | reading each id succeeds exactly when every id reads, giving one text per id |
| Sentences.InternedContents | src/sentence.cpp:39-48 | interning words keeps the old list as a prefix; a string is in the result exactly when it was in the list or is one of the words |
| Sentences.IndexDetermined | src/sentence.cpp:21-34 | under the inverse invariant the list determines the index, so the list equalities above fix the whole bag |
| Sentences.WordBag.Add | src/sentence.cpp:21-34 | returns the id holding the string, keeps list and index mutual inverses; a present string changes nothing; a new string gets the old length, is appended and indexed |
| Sentences.Sentence.constructor | src/sentence.hpp:41 | the empty sentence over the bag, size 0 |
| Sentences.Sentence.FromIds | src/sentence.cpp:37 | holds exactly the given ids, size their count, unchecked against the bag |
| Sentences.Sentence.FromText | src/sentence.cpp:39-48 | one id per `getline` field, in order, each id naming its field; the bag gains exactly the fields it lacked, appended in first-occurrence order (`Interned`); size equals the field count |
| Sentences.Sentence.Token | src/sentence.hpp:54-56 | the bag's text of the id at the position; fails exactly when that id is unknown |
| Sentences.Sentence.SetTokenId | src/sentence.hpp:62-64 | only the given position changes, to the given id; length unchanged |
| Sentences.Sentence.SetToken | src/sentence.hpp:66-68 | interns the text (the bag gains exactly that text when new, `Intern`) and stores its id at exactly that position |
| Sentences.Sentence.Append | src/sentence.cpp:64-67 | one id added at the end, earlier ids unchanged, size up by one |
| Sentences.Sentence.AppendText | src/sentence.cpp:69-72 | the text is interned (the bag gains exactly that text when new, `Intern`) and its id added at the end; size up by one |
| Sentences.Sentence.Str | src/sentence.cpp:50-62 | the token texts joined by single spaces whatever the separator, `""` when empty; fails, with UnknownToken, exactly when some id is unknown |
| Sentences.Sentence.View | src/sentence.cpp:74-76 | a view over `[0, size)` of this sentence |
| Sentences.Sentence.Slice | src/sentence.cpp:78-80 | a view with exactly the given bounds, unclamped: the default end -1 gives a negative size and a view that is not well formed |
| Sentences.Sentence.Iterator | src/sentence.cpp:82-84 | a cursor at `start` bounded by `end` over the whole-sentence view, loaded with the id at `start` when it has it |
| Sentences.SentenceView.constructor | src/sentence.hpp:87 | the view holds the sentence and bounds given |
| Sentences.SentenceView.Size | src/sentence.hpp:117-119 | size is end minus start (negative when end is below start) |
| Sentences.SentenceView.TokenId | src/sentence.hpp:105-107 | the sentence's id at `index + start` |
| Sentences.SentenceView.Token | src/sentence.hpp:101-103 | the bag's text of the shifted id |
| Sentences.SentenceView.SetTokenId | src/sentence.hpp:109-111 | the sentence changes at exactly `index + start` |
| Sentences.SentenceView.SetToken | src/sentence.hpp:113-115 | interns the text (the bag gains exactly that text when new, `Intern`) and stores its id at exactly `index + start` |
| Sentences.SentenceView.Str | src/sentence.cpp:87-101 | `""` for a size of zero or less; otherwise the texts of `[start, end)` joined by single spaces, failing with UnknownToken exactly when one is unknown |
| Sentences.SentenceView.Iterator | src/sentence.cpp:103-105 | a cursor at 0 over this view bounded by `end - start` |
| Sentences.SentenceCursor.constructor | src/sentence.hpp:142-146 | position and bound as given; the id is loaded only when the cursor has the position |
| Sentences.SentenceCursor.Has | src/sentence.cpp:108-110 | `curr < view size && (end == -1 \|\| curr < end)` |
| Sentences.SentenceCursor.HasNext | src/sentence.cpp:112-114 | the same test at `curr + 1`, and it implies `has` |
| Sentences.SentenceCursor.Next | src/sentence.cpp:116-122 | moves on by exactly one and reloads the id exactly when the cursor still has its position |
| Sentences.SentenceCursor.Offset | src/sentence.hpp:168-170 | a cursor at `curr + offs` over the same view with the same bound |
| Sentences.SentenceCursor.SetToken | src/sentence.hpp:156-158 | interns the text (the bag gains exactly that text when new, `Intern`) and stores its id at the cursor's position of the view |
| Scoring.Start | src/kovplus.cpp:15-21 | right alignment: the first compared context offset skips exactly the context ids with no partner in a shorter query (a positive start leaves exactly `\|tokens\|` context ids to compare) |
| Scoring.MatchSumRange | src/kovplus.cpp:23-31 | the weight sum over n offsets lies in `[0, n/2]` and is positive exactly when some compared pair agrees |
| Scoring.Score | src/kovplus.cpp:7-34 | zero without an agreeing pair; non-negative for non-negative strength, zero for zero strength; for positive strength positive exactly when a pair agrees |
| Scoring.Tally | src/kovplus.cpp:87-93 | the sum of a successor's scores is non-negative when every strength is |
| Scoring.TallyPositive | src/kovplus.cpp:87-93 | with non-negative strengths, a tally is positive exactly when some positive-strength assessor has an agreeing pair |
| Scoring.TallyMap | src/kovplus.cpp:141-154 | one tally per recorded successor, no more |
| Scoring.SelectFrom | src/kovplus.cpp:172-182 | the first position from k on whose running sum exceeds the selection point; none exactly when no running sum does |
| Scoring.Select | src/kovplus.cpp:172-182 | the first candidate whose running sum exceeds the selection point, with every earlier running sum at or below it |
| Scoring.SelectInRange | src/kovplus.cpp:172-182 | a selection point in `[0, total)` over non-negative tallies always picks a candidate, and its tally is positive |
| Scoring.SelectPicksPositive | src/kovplus.cpp:166-182 | with a positive total and a draw in `[0, 1)` the scan never falls through, and the pick has a positive tally |
| Scoring.PrefixMonotone | src/kovplus.cpp:176 | running sums of non-negative tallies never decrease |
| Scoring.ZeroTotal | src/kovplus.cpp:166-168 | with non-negative tallies, a zero total means every tally is zero |
| Scoring.TotalAppend | src/kovplus.cpp:152-153 | the total of two lists is the sum of their totals |
| Scoring.TotalOrderIndependent | src/kovplus.cpp:141-156 | any two orders of the candidate list have the same total |
| Scoring.ZeroTotalEnumerated | src/kovplus.cpp:141-156 | with non-negative tallies, the total is zero exactly when every successor's tally is zero |
| Ingestion.Window | src/kovplus.cpp:57-59 | the ids at positions `max(0, i - W) .. i`: `min(i, W) + 1` of them, oldest first, ending with the id at `i` |
| Ingestion.Record | src/kovplus.cpp:64-68 | appends exactly the assessor to the (from, to) list, creating the entries on first use |
| Ingestion.RecordFrame | src/kovplus.cpp:64-68 | recording leaves every other list unchanged and removes no key |
| Ingestion.IngestedEntries | src/kovplus.cpp:49-70 | every existing list is kept as a prefix, and each (from, to) occurrence adds one assessor at its end, in sentence order |
| Ingestion.AddedCount | src/kovplus.cpp:52-68 | exactly one assessor per adjacent occurrence of the pair |
| Ingestion.AddedShape | src/kovplus.cpp:53-59 | each added assessor has the given strength and a context of at most `W + 1` ids ending with `from` |
| Ingestion.IngestedGrows | src/kovplus.cpp:64-68 | ingestion removes no key at either level: the index only grows |
| Ingestion.IngestedNonNegative | src/kovplus.cpp:53-68 | ingesting with a non-negative strength keeps every recorded strength non-negative |
| Ingestion.IngestedWellKeyed | src/kovplus.cpp:61-68 | ingesting interned ids keeps every key an interned id with non-empty maps and lists |
| Ingestion.Bump | src/kovplus.cpp:50 | one more occurrence of the id, other counts unchanged |
| Ingestion.CountedOccurrences | src/kovplus.cpp:49-50 | each id's count rises by its number of occurrences in the sentence, the last token included |
| KovPlus.KovPlusChain.constructor | src/kovplus.hpp:31 | the given width; empty index and counts; no id has a successor; a bag holding only `""` |
| KovPlus.KovPlusChain.CanAssess | src/kovplus.cpp:108-116 | true exactly when the last id has a recorded successor |
| KovPlus.KovPlusChain.CanAssessText | src/kovplus.cpp:118-128 | fails exactly when a word is unknown; otherwise true exactly when the last word's id has an index entry |
| KovPlus.KovPlusChain.Assess | src/kovplus.cpp:7-34 | succeeds exactly when the context covers the window, and then returns `Score`; otherwise ReadPastEnd |
| KovPlus.KovPlusChain.AssessView | src/kovplus.cpp:36-44 | `Assess` applied to the view's ids `[start, end)`, or to no ids when the size is not positive |
| KovPlus.KovPlusChain.SumAssessments | src/kovplus.cpp:87-93 | the assessors' `Tally` when every one is assessable, ReadPastEnd otherwise |
| KovPlus.KovPlusChain.GetAssessment | src/kovplus.cpp:73-94 | equals the chain's `Assessment`; zero when (last id, to) is not recorded; non-negative under non-negative strengths |
| KovPlus.KovPlusChain.GetAssessmentText | src/kovplus.cpp:96-106 | UnknownToken when a word of `from` is unknown, otherwise `Assessment` of the resolved ids |
| KovPlus.KovPlusChain.GetAssessmentTo | src/kovplus.hpp:48-50 | UnknownToken for an unknown `to` word (not zero), checked before `from` is read, so an empty `from` is allowed then; otherwise `Assessment` with its id |
| KovPlus.KovPlusChain.GetAssessmentTextTo | src/kovplus.hpp:52-54 | `to` resolved first, then the words of `from`; UnknownToken if either fails, otherwise `Assessment` |
| KovPlus.KovPlusChain.GetAssessments | src/kovplus.cpp:130-157 | `(0, [])` without an entry; otherwise every successor exactly once with its tally (any order) and the total of the tallies; ReadPastEnd exactly when some assessor is short |
| KovPlus.KovPlusChain.AddSentence | src/kovplus.cpp:46-71 | the bag gains exactly the fields it lacked, in first-occurrence order (`Interned`); index and counts become `Ingested` and `Counted` of the sentence's ids; fewer than two fields add no transition; a non-negative strength keeps the chain `NonNegative` |
| KovPlus.KovPlusChain.IngestTokens | src/kovplus.cpp:49-70 | the cursor loop records every adjacent pair with its window and counts every position |
| KovPlus.KovPlusChain.IngestAt | src/kovplus.cpp:50-68 | one loop step: counts the id at the cursor and, with a next position, records that pair with its window |
| KovPlus.WindowOf | src/kovplus.cpp:57-59 | the context loop builds exactly `Window` |
| KovPlus.KovPlusQuery.FromIds | src/kovplus.hpp:84-92 | the context (and the result) is exactly the seed ids, in order |
| KovPlus.KovPlusQuery.FromWords | src/kovplus.hpp:94-102 | fails with UnknownToken exactly when a seed word is unknown; otherwise the context is the seed words' ids, in order |
| KovPlus.KovPlusQuery.FromText | src/kovplus.hpp:71-82 | as `FromWords` on the `getline` fields of the seed text |
| KovPlus.KovPlusQuery.AddContext | src/kovplus.hpp:114-118 | appends the id to the context and the result, keeping `my_size == \|context\| == result size` |
| KovPlus.KovPlusQuery.AddContextWord | src/kovplus.hpp:110-112 | a known word appends its id; an unknown word fails and changes nothing |
| KovPlus.KovPlusQuery.Size | src/kovplus.hpp:128-130 | the length of the context and of the result |
| KovPlus.KovPlusQuery.Pick | src/kovplus.cpp:161-182 | ReadPastEnd exactly when a successor has a short assessor; otherwise `Next` over an enumeration of the successors; the pick is a recorded, interned successor; with non-negative strengths, none exactly when the chain halts, and a pick has a positive tally |
| KovPlus.KovPlusQuery.MakeNext | src/kovplus.cpp:160-186 | nothing picked: `""` and no change; a pick is appended and its text returned; `""` with a pick only for id 0; only the query changes, never the chain or the bag |
| KovPlus.KovPlusQuery.Advance | src/kovplus.cpp:190-194 | one call appends at most one id, a non-zero id exactly when the text is not empty; it fails (ReadPastEnd, nothing appended) exactly when a successor of the last id has a short assessor; under non-negative strengths an empty text with no append happens only when the chain halts; an appended id is a recorded successor of the last id, with a positive tally under non-negative strengths, so a `Generated` context stays `Generated` |
| KovPlus.KovPlusQuery.MakeUpTo | src/kovplus.cpp:188-196 | the context only grows and ends no longer than `max(initial, limit)`; ids appended before the last are non-zero; a failure is ReadPastEnd and happens only where the last id has a successor with a short assessor; on success under non-negative strengths, a stop below the limit is id 0 appended or a halt; every appended id follows the one before it as a recorded successor, with a positive tally under non-negative strengths (`Generated`) |
| KovPlus.GeneratedSnoc | src/kovplus.cpp:190-194 | appending a recorded successor (with a positive tally under non-negative strengths) keeps a context `Generated` |
| KovPlus.EmptyTextIsZero | src/sentence.cpp:5-7 | among interned ids only 0 has the empty text |
| KovPlus.HaltsIffZeroTotal | src/kovplus.cpp:166-168 | with non-negative strengths every tally is non-negative and the total is zero exactly when the chain halts |
| KovPlus.Scan | src/kovplus.cpp:172-182 | the running-sum loop picks exactly `Select` |
| KovPlus.Next | src/kovplus.cpp:166-185 | a pick is one of the candidates |
| KovPlus.Choose | src/kovplus.cpp:163-185 | the zero-total check plus the scan compute exactly `Next` |
| KovPlus.NextIsRecorded | src/kovplus.cpp:178-180 | a pick is a recorded successor of the last id and an interned id |
| KovPlus.NextContinues | src/kovplus.cpp:166-182 | with non-negative strengths, none is picked exactly when the chain halts, and a pick has a positive tally |
| KovPlus.FreshChainHalts | src/kovplus.cpp:166-168 | with an empty index there are no candidates: nothing is picked and the chain halts |

## Left out

- `demo.cpp` is not part of this model. It is an input/output driver with no logic of its own.
- The top-level `kovplus.cpp` and `kovplus.hpp` are not part of this model. They are an older copy of the engine, inconsistent with their own header; only `src/` is modelled.
- Score: the weight `1/(1+sqrt(1+sqrt(count)*|W-k|))` is not computed. The chain is given an abstract weight function, typed to lie in (0, 1/2] for every count and distance. That bound is what the formula guarantees, and every proof uses only the bound. The model passes distance `width - k`, which is the code's `|W - exp_i|` for `exp_i < W`.
- Tallies and totals are exact reals, not `double`. Rounding is not modelled.
- SelectPicksPositive: holds over exact reals. Under `double` rounding the scan could in principle fall through to the final `""` (the commented-out warning at `src/kovplus.cpp:184`); the model keeps that fall-through path (`Next` can be `None`) but proves it unreachable only for exact arithmetic.
- The random engine, its distribution, and the rng ownership and `delete` in the query destructor are left out. `make_next` takes the uniform draw `u` in `[0, 1)` as a parameter. `make_up_to` takes a draw sequence and uses its n-th element for the n-th call.
- `unordered_map` iteration order is not modelled. `get_assessments` enumerates the successors in an arbitrary order, and the properties hold for every order (`TotalOrderIndependent`).
- The statistical claim, that each successor is picked with probability proportional to its tally, is not proved. Only the deterministic selection rule is.
- `istringstream`/`getline` is replaced by the pure `Split`, which has the same field semantics.
- Out-of-range reads are undefined behaviour in C++. The model does not reproduce them:
  - `assess` reports `ReadPastEnd` instead.
  - `back()` on an empty context is excluded by `requires |from| > 0`.
  - Views and cursors require the positions they read to lie inside the sentence.
- Assess: the read past the end is reported as `ReadPastEnd` rather than reading whatever memory follows, so the model assigns no score to such an assessor.
- SentenceCursor.constructor, SentenceCursor.Next, SentenceCursor.Offset, Sentence.Iterator, SentenceView.Iterator: these never fail in the model. The C++ `update_self` (`src/sentence.cpp:124-127`) also takes `&view.token(curr)`, which throws `std::out_of_range` for an id the bag does not know; that throw is not modelled. Such ids can reach a sentence through `Sentence(bag, ids)`, `append(int)` and `set_token_id`, but the only cursor the engine itself uses, in `add_sentence`, walks ids just interned by the split constructor. `curr_token`, the cached pointer, is not kept: `token()` is read as `bag.GetText(currId)`, which reports UnknownToken where the C++ throws. `id()` and `curr_index()` are the fields `currId` and `curr`.
- Integer width: ids, sizes, positions, counts, the window width and the limit are unbounded `int`/`nat`, while the C++ uses 32-bit `int`. The narrowing `int new_index = token_list.size()` (`src/sentence.cpp:28`) and the `int` counts of `word_count` (`src/kovplus.hpp:27`) would overflow only past 2^31 - 1 interned strings or occurrences; that wrap-around is not modelled.
- The trivial getters are modelled as field reads, not as members:
  - `get_bag` and `get_sentence`;
  - the view's `get_start` and `get_end`;
  - the query's `get`.
- KovPlusQuery: `str()` is `Sentence.Str` on the query's result and has no member of its own.
- Pick, MakeNext, Advance, MakeUpTo, NextContinues, HaltsIffZeroTotal: the iff between "nothing picked" and "no continuation", and the positive tally of a pick, assume non-negative strengths. `add_sentence` accepts any strength; `AddSentence` and `IngestedNonNegative` show that a chain fed only non-negative strengths (the default 1.0 among them) stays non-negative.
