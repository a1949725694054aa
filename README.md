# CET-4 vocabulary mailer: word selection, word-list parsing and statistics

This project models, in Dafny, the core of a small daily vocabulary mailer.
Each day the program picks some English words from a CET-4 word list and
mails them. The model covers four parts of it:

- **The word-list reader** (`WordParser`). It reads the word file line by line and turns
  each line of the form `headword [phonetic] definition` into a record. Records keep file
  order, and a record's position is the word's corpus index.
- **The spaced-repetition scheduler** (`WordSelectorV2`). It keeps one review record per
  introduced word. Each day it hands out the words due for review and tops the quota up
  with new words. After a review it moves the word along the interval table
  1, 2, 4, 7, 15, 30 days. When the corpus runs out of unused words it wipes its history.
- **The older random selector** (`WordSelector`). It only remembers which indices it has
  handed out.
- **The statistics page's aggregates.** These are the learning streak, the 30-day
  histogram of new words, and the counts, rates and lists of `calculate_statistics`.

Modules, one per file:

| file | module | models |
|---|---|---|
| wrappers.dfy | `Wrappers` | `Option` and `Result` |
| indices.dfy | `Indices` | the pool of unused indices, the exhaustion reset, what a `random.sample` draw is, percentages |
| parser.dfy | `Parser` | `str.strip`, the line pattern, the skip rules, `parse` and `get_word_count` |
| scheduler.dfy | `Scheduler` | `WordSelectorV2` |
| simple_selector.dfy | `SimpleSelector` | `WordSelector` |
| web_stats.dfy | `WebStats` | `calculate_streak`, `calculate_daily_stats`, `calculate_statistics` |

Modelling choices:

- **Dates.** Dates are integer day numbers, and "today" is a parameter.
- **Randomness.** Each call of `random.sample` becomes a draw the caller supplies. A
  precondition requires that draw to be one `random.sample` could return: the right
  number of distinct members of the pool.
- **Files.** Loading a state file becomes a constructor argument. `None` stands for a
  missing or corrupt file.
- **Objects.** The two selectors and the parser are classes whose methods update their
  fields. The statistics functions are pure functions, plus methods where the source
  loops.
- **Percentages.** Percentages are exact ratios (`Percent` in `Indices`).
- **The line pattern.** `^([a-zA-Z\-]+)\s+(\[.*?\])?\s+(.+)$` is modelled twice:
  - `IsMatch` states declaratively what a match of the whole pattern is, as four cut
    points in the line (end of headword, start and end of the phonetic, start of the
    definition).
  - `MatchCut` follows the order in which Python's backtracking matcher tries the
    alternatives, and `MatchLine` reads the groups off the cut it finds.
  - Soundness and completeness lemmas connect the two.

Facts about the code that the model makes explicit:

- **The 30-day fallback in `mark_reviewed` is never taken.** The level is clamped to
  `len(REVIEW_INTERVALS) - 1` just before the test (`FallbackUnreachable`). A 30-day wait
  at the top level comes from the last table entry (`TopLevelWaitsThirty`).
- **With one review due and quotas 3 and 2, `select_words` asks for 4 new words.** The
  review shortfall is added to the new-word quota (`NewQuota`).
- **The older selector asks `random.sample` for exactly `count` words.** A request larger
  than the word list therefore fails, after the history has been wiped. The scheduler asks
  for `min(count, pool size)` and never fails this way. The two are modelled separately.
- **The page and the scheduler use different "mastered" thresholds.** The statistics
  page counts a word as mastered from level 3. The scheduler's `get_progress` counts
  from level 5. Both constants are kept as written.

The skip rules of the parser are redundant. Every skipped line starts with a character
the headword class rejects, or is too short to match, so skipping changes nothing
(`SkipRulesRedundant`).

## Model

| member | source | states |
|---|---|---|
| Indices.Available | src/core/word_selector.py:84 | the unused indices below the corpus size, ascending, each once; every unused index below the size is listed; their number plus the used ones below the size is the size |
| Indices.Pool | src/core/word_selector.py:84-90 | after the exhaustion reset the pool is the whole range; otherwise it has at least `count` indices, none used; all lie inside the corpus |
| Indices.Percent | src/core/word_selector.py:188-189 | a percentage is never negative, is 0 for a zero denominator, and is at most 100 when the part does not exceed the whole |
| Parser.Strip | src/core/word_parser.py:25 | `strip()` removes whitespace only, from both ends, and leaves neither end whitespace |
| Parser.StripLine | src/core/word_parser.py:20-25 | a stripped line from `readlines()` contains no newline, so the pattern sees a single line |
| Parser.HeadwordEnd | src/core/word_parser.py:33 | the greedy headword group takes the whole run of letters and hyphens |
| Parser.SpaceEnd | src/core/word_parser.py:33 | a greedy `\s+` takes the whole run of whitespace |
| Parser.CloseBracket | src/core/word_parser.py:33 | the lazy `.*?\]` stops at the first `]` that is followed by whitespace, and no `]` before it is |
| Parser.TrailStart | src/core/word_parser.py:25 | the trailing whitespace run of a line ends it, and the character before it is not whitespace |
| Parser.MatchCut | src/core/word_parser.py:33 | the cut the backtracking matcher settles on is a match of the whole pattern, with a definition starting at a non-space; without a phonetic the definition starts one character after the second `\s+` begins |
| Parser.Fields | src/core/word_parser.py:36-38 | the three groups of a match: a headword of letters and hyphens, an empty or bracketed phonetic, a definition starting where the match puts it |
| Parser.MatchLine | src/core/word_parser.py:33-38 | a match yields a non-empty headword of letters and hyphens, an empty or bracketed phonetic, and a definition that starts with a non-space; without a phonetic, headword and definition are separated by at least two whitespace characters |
| Parser.MatchLineSound | src/core/word_parser.py:33-38 | every record the matcher yields is the groups of some match of the whole pattern |
| Parser.SplitHeadword | src/core/word_parser.py:33 | in any match of the pattern the headword is the maximal run of letters and hyphens |
| Parser.MatchCutComplete | src/core/word_parser.py:33 | whenever the pattern can match a line, the matcher finds a match with the same headword; when it can match with a phonetic, the matcher takes a phonetic, no longer than that one |
| Parser.MatchLineComplete | src/core/word_parser.py:33-38 | whenever the pattern can match a line, the line is kept with that headword; when it can match with a phonetic, the kept record has a non-empty phonetic no longer than that one |
| Parser.SingleSpaceDropped | src/core/word_parser.py:33 | `go away` is dropped and `go  away` is read as headword `go`, definition `away` |
| Parser.Skipped | src/core/word_parser.py:28-29 | empty and one-character lines are skipped; any other skipped line starts with `大` or `(` |
| Parser.SkipRulesRedundant | src/core/word_parser.py:28-29 | no line the skip rules remove would have matched the pattern |
| Parser.Classify | src/core/word_parser.py:25-38 | what one line yields is either nothing or a record of the right shape |
| Parser.Kept | src/core/word_parser.py:35-44 | the kept records are no more than the lines |
| Parser.KeptMembers | src/core/word_parser.py:35-44 | every kept record is the record of some line, and every line's record is kept |
| Parser.KeptAt | src/core/word_parser.py:24-44 | the positions of the lines that yield records, ascending, all of them |
| Parser.KeptInOrder | src/core/word_parser.py:24-44 | the k-th kept record is the record of the k-th line that yields one |
| Parser.Parsed | src/core/word_parser.py:15-47 | every parsed record has the right shape |
| Parser.ParsedInFileOrder | src/core/word_parser.py:15-47 | the parsed list has one record per matching line, in file order; a word's corpus index is its rank among matching lines |
| Parser.WordParser.constructor | src/core/word_parser.py:11-13 | a new parser holds no records |
| Parser.WordParser.Parse | src/core/word_parser.py:15-47 | the loop returns and stores exactly the records of the file, in order |
| Parser.WordParser.GetWordCount | src/core/word_parser.py:49-53 | the count is the number of parsed records; records already held are not re-read |
| Scheduler.Fresh | src/core/word_selector.py:104-111 | a new word's record: no reviews, level 0, learned and reviewed today, due tomorrow |
| Scheduler.Interval | src/core/word_selector.py:166-172 | the wait before the next review is always at least one day |
| Scheduler.Advance | src/core/word_selector.py:160-172 | a review adds one to the count, sets the last review to today, sets the level to the count clamped to 5, and keeps word and first date |
| Scheduler.AdvanceProgresses | src/core/word_selector.py:160-172 | the level never goes down and never exceeds 5; the next review is strictly after the last one |
| Scheduler.FallbackUnreachable | src/core/word_selector.py:163-172 | the computed level is always inside the table, so the 30-day branch is dead and the wait is the table entry |
| Scheduler.MasteryLadder | src/core/word_selector.py:161-163 | after n reviews the count has grown by n and the level is the count clamped to 5 (levels 1, 2, 3, 4, 5, 5, ...) |
| Scheduler.TopLevelWaitsThirty | src/core/word_selector.py:163-169 | from the fifth review on, the level is 5 and the next review is 30 days later |
| Scheduler.WithFresh | src/core/word_selector.py:98-113 | after the draw the records are those of the base plus one per drawn index |
| Scheduler.NewPicks | src/core/word_selector.py:98-114 | one new-word entry per drawn index, in draw order, none tagged as a review |
| Scheduler.DrawInCorpus | src/core/word_selector.py:93 | every drawn index lies inside the corpus |
| Scheduler.DrawShape | src/core/word_selector.py:84-93 | a draw has no repeats; without the reset it has exactly `count` indices, none introduced before; after the reset it has `min(count, corpus size)` |
| Scheduler.ResetForgetsHistory | src/core/word_selector.py:87-90 | after a reset, the introduced set and the record keys are exactly the drawn indices |
| Scheduler.UsedGrowth | src/core/word_selector.py:113 | the introduced set grows by exactly the number of words drawn |
| Scheduler.DrawKeepsState | src/core/word_selector.py:87-113 | a draw preserves the state invariant, and restores it after a reset |
| Scheduler.UndrawnRecords | src/core/word_selector.py:87-113 | without a reset, records of undrawn words are untouched; with one they are gone, including those handed out as reviews in the same call |
| Scheduler.NoRepeatedNewWords | src/core/word_selector.py:84-93 | two successive draws with no reset between them share no index |
| Scheduler.ReviewQuota | src/core/word_selector.py:134-135 | all due words are reviewed when they fit the review quota; otherwise exactly the quota |
| Scheduler.NewQuota | src/core/word_selector.py:137-139 | reviews plus requested new words always make up the two quotas together; at least the new quota is requested, exactly it when enough reviews are due |
| Scheduler.QuotaKept | src/core/word_selector.py:131-142 | when the corpus is at least as large as the two quotas together, reviews plus new words equal the two quotas together |
| Scheduler.ProgressOf | src/core/word_selector.py:181-190 | both percentages are 0 when their denominators are 0 |
| Scheduler.MasteredWithinLearned | src/core/word_selector.py:181-189 | under the state invariant, mastered words are at most the introduced words, the mastery percentage is at most 100, and mastered means reviewed at least five times |
| Scheduler.WordSelectorV2.constructor | src/core/word_selector.py:22-34 | a missing or corrupt file gives empty state; a loaded file is taken as it is |
| Scheduler.WordSelectorV2.DueReviewWords | src/core/word_selector.py:46-70 | the due list holds each due word exactly once, as a review entry with its stored count and level, and nothing else |
| Scheduler.WordSelectorV2.SelectNewWords | src/core/word_selector.py:72-116 | the drawn words are returned in draw order and get fresh records and introduced marks, on top of the history or of nothing after a reset; the invariant is kept |
| Scheduler.WordSelectorV2.AddFresh | src/core/word_selector.py:98-114 | the loop returns one new-word entry per drawn index in draw order, adds exactly the drawn indices to the used set, and records each drawn word as learned today |
| Scheduler.WordSelectorV2.SelectWords | src/core/word_selector.py:118-144 | reviews are `min(due, reviewCount)` distinct due words with their old records, and all due words when they fit; new words fill the rest of the quota; the total is kept when the corpus is large enough |
| Scheduler.WordSelectorV2.MarkReviewed | src/core/word_selector.py:146-172 | a known word advances one review and nothing else changes; an unknown index changes nothing; the invariant is kept |
| Scheduler.WordSelectorV2.GetProgress | src/core/word_selector.py:174-190 | the progress of the current state; mastered at most learned while the invariant holds |
| SimpleSelector.DrawPossible | word_selector.py:53-58 | the pool holds `count` words exactly when the word list does |
| SimpleSelector.Growth | word_selector.py:53-62 | without a reset no drawn index was used before; the used set grows by exactly `count`, from nothing after a reset |
| SimpleSelector.NoRepeats | word_selector.py:50-62 | two successive calls with no reset between them share no index |
| SimpleSelector.ProgressOf | word_selector.py:67-74 | learned plus remaining is the total; the percentage is 0 for an empty list |
| SimpleSelector.ProgressBounded | word_selector.py:71-73 | while every used index lies in the list, nothing remains negative and progress is at most 100 |
| SimpleSelector.WordSelector.constructor | word_selector.py:18-27 | a missing or corrupt file gives an empty used set; a loaded file is taken as it is |
| SimpleSelector.WordSelector.SelectWords | word_selector.py:38-65 | a request larger than the list fails after the history is wiped; otherwise the drawn words are returned in draw order and added to the used set, which starts from nothing after a reset |
| SimpleSelector.WordSelector.GetProgress | word_selector.py:67-74 | the progress of the used set; nothing remains negative while every used index lies in the list |
| WebStats.InsertDescending | src/web/app.py:100 | inserting a new date into a strictly descending list keeps it strictly descending and adds exactly that date |
| WebStats.SortDescending | src/web/app.py:100 | the sorted dates are strictly descending and are exactly the input dates |
| WebStats.CollectDates | src/web/app.py:86-94 | the loop gathers every first-learned and last-review date that is present |
| WebStats.ListDates | src/web/app.py:100 | iterating the date set lists each date once |
| WebStats.StreakUnique | src/web/app.py:104-111 | at most one number meets the streak conditions, so they determine the streak |
| WebStats.CalculateStreak | src/web/app.py:81-113 | the streak is the number of consecutive days ending today on which something was studied; it is 0 when there are no dates or some date lies after today |
| WebStats.RunUpTo | src/web/app.py:96-113 | for a set of dates: 0 when empty, otherwise the length of the run of days ending today that all lie in the set, no longer than the set; 0 when some date lies after today |
| WebStats.WalkRun | src/web/app.py:104-111 | the loop stops at the first sorted date that is not today minus its position, and every date before it is |
| WebStats.StreakIsRun | src/web/app.py:104-111 | stopping at the first sorted date that is not today minus its position counts exactly the run of days ending today |
| WebStats.LearnedOn | src/web/app.py:118-123 | the words first learned on a day are at most all the words |
| WebStats.DailyCountsBounded | src/web/app.py:118-135 | counts for distinct days add up to the words first learned on those days, and so to at most all the words |
| WebStats.CalculateDailyStats | src/web/app.py:116-135 | thirty entries, oldest first, ending today, each holding the number of words first learned that day, 0 for none; together at most all the words |
| WebStats.TotalReviews | src/web/app.py:32 | with no negative counts, the total is non-negative and at least every single count |
| WebStats.TotalReviewsAppend | src/web/app.py:32 | the total over two parts of the file is the sum of their totals |
| WebStats.Bump | src/web/app.py:38 | incrementing a level's count adds that level if new, keeps levels distinct, adds one to that level's count only, and one to the total |
| WebStats.Histogram | src/web/app.py:35-38 | one entry per level present and no other; each count is positive and equals the number of words at that level; the counts add up to the number of words; the counts from level 3 up add up to the words at level 3 or above |
| WebStats.DistributionCounts | src/web/app.py:35-38 | each entry of the distribution is the number of words at its level |
| WebStats.Mastered | src/web/app.py:41 | the mastered sum is the number of words at level 3 or above, at most all words |
| WebStats.MasteryRate | src/web/app.py:42 | the mastery rate lies between 0 and 100, and is 0 for an empty history |
| WebStats.ProgressPercent | src/web/app.py:45 | progress is non-negative, and at most 100 while no more words were learned than the list has |
| WebStats.TodayReviewCount | src/web/app.py:52-55 | the words due exactly today are at most all the words |
| WebStats.TodayExcludesOverdue | src/web/app.py:52-55 | the count of today's reviews is the words due by today less those due by yesterday, so overdue words are not counted |
| WebStats.InsertRecent | src/web/app.py:58-61 | inserting into a latest-first list keeps it latest first and adds exactly that word |
| WebStats.ConsLatest | src/web/app.py:58-61 | a word reviewed no earlier than the head of a latest-first list can be put in front of it |
| WebStats.SortRecent | src/web/app.py:58-61 | the sorted list is latest first and a permutation of the words |
| WebStats.RecentWords | src/web/app.py:58-62 | at most five words, latest first, drawn from the history; no word left out was reviewed later than a word kept |
| WebStats.TopOfSorted | src/web/app.py:62 | the head of a latest-first list was reviewed no earlier than anything after it |
| WebStats.LeftOutAreOlder | src/web/app.py:58-62 | splitting the words into a kept part and a rest reviewed no later leaves only older words out |
| WebStats.CalculateStatistics | src/web/app.py:25-78 | the page's figures: word and review totals, distribution, rates, the streak of study days ending today (as `calculate_streak` computes it), today's reviews, recent words, and the thirty daily counts of `calculate_daily_stats`, oldest first, each the number of words first learned that day, together at most all words |

## Left out

- JSON loading and saving, `save_history`, the clock and the random generator are outside the model. A loaded file is a constructor argument, "today" is a parameter, and random draws are arguments. The statistics page reads the clock three times (src/web/app.py:51, :103 and :126), and near midnight the reads can fall on different days; the model uses one "today" for all three.
- Parser.WordParser: the word file's lines are a constructor argument, read once. The source opens and reads the file on every `parse()` call (src/core/word_parser.py:19-20) and raises when it is missing or not valid UTF-8; neither the re-read nor the errors are modelled.
- Malformed state files are not modelled: missing keys in records the scheduler reads, non-date strings, non-integer keys, and negative counts or levels. Counts and levels are `nat` in the scheduler.
- Scheduler.WordSelectorV2.DueReviewWords: the due list is stated as a set of due words, each once. Its order is not stated, since the source takes it from the dictionary's key order.
- Scheduler.WordSelectorV2.SelectWords: the review sample is stated as a set of distinct due words, not as a particular random order.
- Floating-point arithmetic and `round(..., 1)` / `round(..., 2)` are not modelled. Percentages are exact ratios.
- WebStats.SortRecent: Python's sort is stable, so words with equal review dates keep their file order. The model's insertion sort keeps that order too, but the contract states only latest-first and a permutation.
- WebStats.RecentWords: which of several words with the same review date are kept is not stated, for the same reason. The words are whole history entries, key and record together, rather than `(key, record)` pairs.
- WebStats.CalculateStatistics: `last_update` and the Flask response are not modelled.
- Date strings are compared as day numbers. The scheduler parses `next_review` into a date before comparing it (src/core/word_selector.py:58-60). The statistics page compares `next_review` with today's ISO string (src/web/app.py:54) and sorts by the `last_review` string (src/web/app.py:60); ISO strings order the same way as the dates for well-formed dates.
- The example fetcher, the mail sender, the command-line entry point and the web routes are not part of this model.
