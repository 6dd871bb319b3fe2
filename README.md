# diederdas-go: a Dafny model of the article quiz

`diederdas-go` is a command-line quiz for German articles. The user gets
nouns from a word catalog and answers `der`, `die` or `das`, either by name,
by an alias or by menu number. The program keeps lifetime statistics across
runs: quizzes taken, questions asked, correct answers, and how often each
word was missed. A menu offers:

- a quick quiz of ten questions;
- a custom quiz with a question count and a difficulty;
- a statistics screen with the five most-missed words;
- a practice mode that asks missed words more often.

The project models that core as follows.

- `Records` (`records.dfy`) holds the program's records: `Word`, `Stats`,
  `MistakeInfo` and the running quiz `Session`. It also holds the updates to them:
  - `markWrong`'s bookkeeping, as `Recorded` and `Missed`;
  - `showResults`' fold of a session into the lifetime statistics, as `Settle`;
  - `Progress`, the relation "the statistics only move forward" (no counter
    drops, the wrong answers never shrink, no word's miss count drops, and
    consistent statistics stay consistent).
- `Text` (`text.dfy`) holds the string functions the program uses:
  - `strings.TrimSpace`, over Go's white-space set;
  - `strings.ToLower` (ASCII letters only);
  - `strings.EqualFold`;
  - `strconv.Atoi` on decimal numerals with the 64-bit range.
- `Answers` (`answers.dfy`) holds how each kind of input line is read:
  - `parseArticle` and `numberToArticle`;
  - how `askQuestion` reads a reply: quit, hint, skip, an article, or invalid;
  - how the main menu reads a choice;
  - how the custom menu reads a count and a difficulty;
  - the hint line `printHint` prints.
- `Grading` (`grading.dfy`) specifies asking one question (`Ask`) and
  playing a session (`Play`) as functions of the replies the user types.
  The lemmas prove the effect of each reply, and that a session counts
  exactly the answers it got.
- `Selection` (`selection.dfy`) holds the pools and listings:
  - the quiz pool: the difficulty filter with its fallback to the whole catalog;
  - the practice pool: challenging words, each `min(m + 1, 3)` times;
  - the statistics listing: positive miss counts, sorted in decreasing
    order, the first five, each resolved against the catalog.
- `Shuffling` (`shuffle.dfy`) models `rand.Shuffle` as Go's Fisher–Yates
  pass. A method swaps in place in an array. The random numbers come from a
  stream `rng: nat -> nat`, and the lemmas prove that the pass only rearranges.
- `Game` (`quiz.dfy`) holds the `Quiz` object: the catalog, the statistics,
  the session, the user's input lines with a read position, and the random
  stream with a count of draws.
  - Its methods are `GetInput`, `AskQuestion`, `MarkWrong`, `ShowResults`,
    `StartQuiz`, `ShowPracticeMode`, `ShowDetailedStats`, `ShowCustomMenu`
    and `RunGameLoop`.
  - Each method that changes the state is proved equal to a step function
    from the state before to the state after: `QuizStep`, `PracticeStep`,
    `CustomStep`, `MenuStep` and `GameLoop`.
  - The properties of a whole run are proved about those step functions.
    One is that the lifetime statistics only move forward. Another is that
    a run ends only when the user leaves or the input runs out.

The user's input is the sequence `lines`. `getInput` returns the next line,
trimmed. When the input is exhausted, the program saves and exits. The
model sets `closed`, and every screen returns at once. Each line is also
kept pre-read as a `Reading`: its reply, menu command, count and
difficulty, exactly as the prompts would read it. `ReadFromAll` proves that
those readings are the lines' readings.

## Model

| member | source | states |
|---|---|---|
| Records.Missed | diederdas-go.go:429-441 | markWrong's count update: the miss count of the word goes up by one (its entry is added when absent); the map is otherwise the old one and the three counters stay as they were |
| Records.MissedElsewhere | diederdas-go.go:429-441 | markWrong leaves the miss count of every other word alone |
| Records.Recorded | diederdas-go.go:429-441 | markWrong's session update: the record (word, what the user said, the word's article) is appended, the earlier records are kept, and the correct and total counts stay as they were |
| Records.BumpAll | diederdas-go.go:429-441 | a session's mistakes applied to the miss counts: each word's count goes up by the number of its mistakes, and a word gets an entry exactly when it had one or was missed |
| Records.BumpAllConcat | diederdas-go.go:429-441 | applying the mistakes of two stretches of a session is applying the first, then the second |
| Records.SettleSpec | diederdas-go.go:470-503 | showResults: a session with total 0 leaves the statistics alone; otherwise quizzes go up by one, questions by the total and correct answers by the correct count; the miss counts stay as they were; a sane session keeps consistent statistics consistent and never shrinks the wrong answers |
| Records.ProgressTransitive | diederdas-go.go:240-261 | "the statistics only move forward" composes over successive screens |
| Text.TrimSpaceShape | diederdas-go.go:626-639 | the trimmed line is a contiguous slice of the line with only white space cut at both ends |
| Text.TrimLowerCommute | diederdas-go.go:371-374 | trimming then lower-casing a reply equals lower-casing then trimming it |
| Text.NormalizeIdempotent | diederdas-go.go:443-444 | parseArticle's normalisation of an already normalised reply changes nothing |
| Text.AtoiDecimal | diederdas-go.go:275-276 | strconv.Atoi reads back every decimal numeral within the 64-bit range |
| Answers.ParseArticle | diederdas-go.go:443-453 | each article is returned, with ok, exactly when the normalised input is one of its aliases; any other input gives ("", false) |
| Answers.ParseArticleOfArticle | diederdas-go.go:443-453 | each article name parses to itself |
| Answers.NumberToArticle | diederdas-go.go:455-468 | a trimmed "1", "2" or "3" gives die, der or das respectively, each exactly then; any other input gives "" |
| Answers.NumberAgreesWithParse | diederdas-go.go:455-468 | whenever numberToArticle gives an article, parseArticle gives the same article |
| Answers.ReplyOf | diederdas-go.go:371-405 | an answer is quit, hint or skip exactly when it is one of those words; otherwise it is an article exactly when parseArticle accepts it, with parseArticle's article |
| Answers.ClassifySpec | diederdas-go.go:371-405 | the reply a trimmed input line gives at the answer prompt: quit, hint and skip by their words after lower-casing; otherwise an article exactly when parseArticle accepts the line; otherwise invalid |
| Answers.MenuCommandSpec | diederdas-go.go:245-259 | the menu choices 1 to 4 and the quit words select their screen, and nothing else does; any other input is an invalid choice |
| Answers.CustomCount | diederdas-go.go:275-280 | the question count of a custom quiz is always between 5 and 50 |
| Answers.CustomCountSpec | diederdas-go.go:275-280 | a count that does not parse gives the default 10; a parsed count within 5..50 is kept; a parsed count outside it gives 10 |
| Answers.CustomCountOfNumeral | diederdas-go.go:275-280 | each numeral 5..50 selects that count |
| Answers.CustomCountOutOfRange | diederdas-go.go:275-280 | each numeral outside 5..50 that fits in 64 bits selects the default |
| Answers.CustomDifficultySpec | diederdas-go.go:289-297 | easy, medium and hard are each chosen exactly by their number, name or initial, in any case; anything else means all levels |
| Answers.HintBits | diederdas-go.go:408-427 | one labelled part per filled-in field (translation, category, difficulty, plural), in that order: each field's part sits at the number of filled fields before it, and there are no other parts |
| Answers.Join | diederdas-go.go:408-427 | a joined list starts with its first part |
| Answers.JoinSnoc | diederdas-go.go:408-427 | strings.Join of one part is that part, and one more part appends the separator and the part, which fixes every join |
| Answers.HintLineShape | diederdas-go.go:408-427 | the hint is "No hint available." exactly when there are no parts, and otherwise starts with "Hint: " and the first part |
| Answers.HintLineFull | diederdas-go.go:408-427 | for a word with all four fields, the hint is "Hint: EN: … \| Category: … \| Difficulty: … \| Plural: …" written out |
| Grading.FirstDecisive | diederdas-go.go:371-405 | the first reply from a position that ends the question (quit, skip or an article), every reply before it being a hint or invalid |
| Grading.Ask | diederdas-go.go:357-406 | asking reads at least one line unless the input is closed, and reads only what is there |
| Grading.AskEffect | diederdas-go.go:357-406 | a question is closed exactly when no reply ends it; it reads up to the first reply that does; quit is exactly "stop"; quit and closed change nothing; the right article adds one to the correct count and nothing else; a skip records "(skip)", and a wrong article records that article, each with one miss of the word |
| Grading.AskCorrectIff | diederdas-go.go:357-406 | the correct count goes up exactly when the first reply that ends the question names the word's article |
| Grading.Take | diederdas-go.go:344-351 | the questions asked are the first `count` of the shuffled pool, none for a count that is not positive |
| Grading.RunPrefix | diederdas-go.go:344-351 | a session only appends mistake records |
| Grading.RunCounts | diederdas-go.go:344-351 | the session loop answers every question unless stopped; a quit sets the total to the questions answered; a closed input leaves the total as it was |
| Grading.GradedStats | diederdas-go.go:357-406 | one graded question changes the statistics exactly as its mistake records say |
| Grading.RunStats | diederdas-go.go:344-351 | after the loop, the statistics are the old ones with the session's new mistakes applied |
| Grading.RunMistakes | diederdas-go.go:344-351 | the loop's mistake records are genuine (the user's answer is "(skip)" or a wrong article, and the correct answer is the word's article), on the session's questions |
| Grading.PlayCounts | diederdas-go.go:336-354 | a played session ends with total = correct + mistakes, at most `count`; its statistics are showResults applied after the misses; a closed input skips showResults |
| Grading.PlayProgress | diederdas-go.go:336-354 | a played session only moves the lifetime statistics forward |
| Grading.PlayMistakes | diederdas-go.go:336-354 | every mistake of a session is genuine and on one of its questions |
| Selection.DistinctCounts | diederdas-go.go:302-355 | a sequence has no repeated element exactly when every element occurs at most once |
| Selection.DistinctPermutation | diederdas-go.go:328-333 | a rearrangement of a sequence without repeats has none |
| Selection.MatchingDifficultyCount | diederdas-go.go:304-317 | the filter keeps each entry whose difficulty matches, case-insensitively, as often as the catalog holds it, and no other entry |
| Selection.QuizPoolSpec | diederdas-go.go:302-322 | the pool is empty only for an empty catalog; it draws from the catalog; it is the matching entries when a difficulty is given and some entry matches; otherwise it is the whole catalog |
| Selection.DistinctQuestions | diederdas-go.go:328-351 | from a catalog without repeats, the first `count` shuffled words are different words of the pool |
| Selection.ChallengingMissed | diederdas-go.go:570-575 | a word is challenging exactly when it is in the catalog and its miss count is positive |
| Selection.PracticeWeight | diederdas-go.go:583-593 | a word with one miss is practised twice, with two or more thrice, and with none not at all |
| Selection.RepeatCount | diederdas-go.go:583-593 | a repeated word occurs that many times and no other word occurs |
| Selection.ExpandSnoc | diederdas-go.go:583-593 | expanding one more challenging word appends its copies |
| Selection.PracticeCount | diederdas-go.go:568-601 | the practice pool holds each catalog entry min(m + 1, 3) times per occurrence for m > 0 misses, and never a word without misses |
| Selection.PracticeCountCap | diederdas-go.go:598-601 | at most ten practice questions, ten unless the pool is smaller |
| Selection.InsertByErrorsSpec | diederdas-go.go:548 | inserting into a list sorted by decreasing miss count keeps it sorted and adds exactly that entry |
| Selection.SortByErrorsSpec | diederdas-go.go:548 | the sort orders by decreasing miss count and is a permutation of its input |
| Selection.SortedCollected | diederdas-go.go:538-548 | sorting the collected counts keeps them exactly the collected counts |
| Selection.PrefixDominates | diederdas-go.go:551-554 | every word among the first n of a sorted list was missed at least as often as every word after them |
| Selection.PrefixCollected | diederdas-go.go:551-554 | the first n collected counts are real positive counts of different words |
| Selection.TopFive | diederdas-go.go:551-554 | the top is the first five of the list, or all of it when it is shorter |
| Selection.TopFiveSpec | diederdas-go.go:538-554 | the listing is min(5, number of missed words) long, and lists each word once with its true count in decreasing order; every word left out was missed no more often than every word shown |
| Selection.FirstWithTerm | diederdas-go.go:555-563 | the catalog lookup finds the first entry with the word, or reports that none has it |
| Selection.Resolved | diederdas-go.go:555-563 | a top entry is shown exactly when the catalog has its word, with its word, its count and the article of the first catalog entry for that word |
| Selection.ResolveSpec | diederdas-go.go:555-563 | the lines shown are exactly the top entries the catalog resolves |
| Selection.ResolveOrdered | diederdas-go.go:555-563 | the lines shown keep the decreasing order of miss counts |
| Shuffling.ShuffleFromPermutes | diederdas-go.go:328-333 | a Fisher–Yates pass only rearranges, whatever the random numbers |
| Shuffling.ShuffledPermutes | diederdas-go.go:328-333 | the shuffled pool is a permutation of the pool |
| Shuffling.Shuffle | diederdas-go.go:328-333 | the in-place array pass gives the shuffle of the pool, using one draw per element but one |
| Game.ReadFromAll | diederdas-go.go:626-639 | the readings agree with the input lines exactly when they are the lines' readings, and such readings are sensible: articles named, counts within 5..50 |
| Game.SensibleReplies | diederdas-go.go:371-405 | every answer of sensible readings names an article |
| Game.QuestionCount | diederdas-go.go:324-326 | the clamp keeps a request that fits, and otherwise gives the pool size |
| Game.AfterPlaySpec | diederdas-go.go:336-354 | a session uses the given draws and only moves the statistics forward; it ends with total = correct + mistakes ≤ count unless the input closed; its mistakes are genuine and on its questions |
| Game.QuizStepSpec | diederdas-go.go:302-355 | an empty pool changes nothing; otherwise the quiz uses the shuffle's draws and only moves the statistics forward; its session counts exactly its answers, at most as many as requested; every mistake in its session is genuine and on a word of the pool |
| Game.QuizQuestions | diederdas-go.go:302-351 | from a catalog without repeats, a quiz asks min(requested, pool) different words of the pool, none for a count that is not positive |
| Game.PracticeStepSpec | diederdas-go.go:568-624 | practice with no missed catalog word changes nothing; otherwise it only moves the statistics forward and asks at most ten questions; every mistake in its session is genuine and on a catalog word missed before |
| Game.CustomStepSpec | diederdas-go.go:273-300 | the custom menu reads a count and a difficulty line and runs that quiz; with fewer than two lines left the run ends; the statistics only move forward |
| Game.MenuStepSpec | diederdas-go.go:245-259 | each choice only moves the statistics forward; quitting ends the run and changes nothing; the statistics screen and an invalid choice change nothing; any other choice ends the run only when the input runs out |
| Game.GameLoopProgress | diederdas-go.go:240-261 | over a whole run, the lifetime statistics only move forward |
| Game.GameLoopEnds | diederdas-go.go:240-261 | a run ends only by reading all input or by a quit choice |
| Game.Quiz.constructor | diederdas-go.go:172-196 | the saved statistics are loaded if there are any, and fresh ones otherwise; the session is empty and nothing has been read or drawn |
| Game.Quiz.GetInput | diederdas-go.go:626-639 | the next line, trimmed, with the read position advanced; at closed input, nothing |
| Game.Quiz.ReadReply | diederdas-go.go:371-374 | the next line read as an answer |
| Game.Quiz.ReadCommand | diederdas-go.go:243-245 | the next line read as a menu choice |
| Game.Quiz.ReadCount | diederdas-go.go:274-280 | the next line read as a question count |
| Game.Quiz.ReadDifficulty | diederdas-go.go:289-297 | the next line read as a difficulty |
| Game.Quiz.MarkWrong | diederdas-go.go:429-441 | appends the mistake record and bumps the word's miss count |
| Game.Quiz.AskQuestion | diederdas-go.go:357-406 | the loop's result, session, statistics and read position are the ones Ask specifies |
| Game.Quiz.ShowResults | diederdas-go.go:470-503 | the statistics become the session settled into them |
| Game.Quiz.PlaySession | diederdas-go.go:336-354 | resets the session, asks until done or quit, and shows results, as AfterPlay specifies |
| Game.Quiz.FilterByDifficulty | diederdas-go.go:304-317 | the catalog entries matching the difficulty, in catalog order |
| Game.Quiz.StartQuiz | diederdas-go.go:302-355 | the new state and the closed flag are QuizStep's |
| Game.Quiz.CollectChallenging | diederdas-go.go:570-575 | the catalog words with positive miss counts, in catalog order |
| Game.Quiz.ExpandPractice | diederdas-go.go:583-593 | each challenging word min(m + 1, 3) times, in order |
| Game.Quiz.ShowPracticeMode | diederdas-go.go:568-624 | the new state and the closed flag are PracticeStep's |
| Game.Quiz.FindEntry | diederdas-go.go:555-563 | the catalog lookup FirstWithTerm specifies |
| Game.Quiz.CollectCounts | diederdas-go.go:538-543 | every word with a positive miss count, once, with its count |
| Game.Quiz.ListTop | diederdas-go.go:555-563 | the top entries resolved against the catalog |
| Game.Quiz.ShowDetailedStats | diederdas-go.go:516-566 | with no questions ever asked, nothing is listed; otherwise the most-missed words as TopFiveSpec describes, each resolved against the catalog |
| Game.Quiz.ShowCustomMenu | diederdas-go.go:273-300 | the new state and the closed flag are CustomStep's |
| Game.Quiz.RunChoice | diederdas-go.go:245-259 | the new state and the stop flag are MenuStep's |
| Game.Quiz.RunGameLoop | diederdas-go.go:240-261 | the final state is GameLoop's |

## Left out

- Reading `words.json` (LoadWords) and reading and writing `stats.json`
  (LoadStats, SaveStats, getDataDir): the catalog and the saved statistics
  are constructor parameters, and nothing is saved.
- Game.Quiz.constructor: LoadStats decodes the saved JSON into the existing
  statistics, merging the word map with the empty fresh one. The model
  takes the decoded statistics as they are, or fresh statistics when they
  are absent or unreadable. This is the same unless the JSON holds keys twice.
- Printing, colours (`init`, `colorsEnabled`, `getColorForScore`), the
  score percentage (a float) and the plain output screens ShowWelcome and
  ShowMenu: the model computes what the screens show, not the text layout.
- The signal handler, and `os.Exit` at exhausted input: exhausted input
  sets `closed`, after which every screen returns at once. The statistics
  the program would save are kept in `stats`.
- Game.Quiz.GetInput: a last line without a newline is returned when it is
  not blank and ends the input when it is blank. The model's `lines` are the
  lines getInput returns, so a blank unterminated last line is simply absent.
- Text.ToLower, Text.EqualFold: Go maps all of Unicode; the model maps only
  ASCII letters.
- The counters are unbounded integers; Go's `int` would wrap after 2^63.
- Shuffling.Shuffle: `rand.Shuffle`'s random numbers come from an abstract
  stream `rng`. Seeding from the clock is not modelled. The model takes one
  draw per swap and reduces it to 0..i with `%`. Go's `rand.Shuffle` instead
  picks each partner with `int31n`, as `(v·(i+1)) >> 32` of a 32-bit draw
  `v`, and may reject a draw and draw again. So one swap can take several
  of Go's draws, and `draws` counts the model's stream, not Go's `Uint32`
  calls.
- Selection.SortByErrors: `sort.Slice` is not stable, and Go iterates maps in
  random order, so ties among equal miss counts may be listed in any order.
  The model sorts by insertion. Its contracts, and ShowDetailedStats', state
  only what holds for every order of ties.
- Grading.AskEffect: the "Question i/n" header, the translation line and
  the plural shown after a correct answer are printing only.
- `main` is not modelled beyond the constructor and RunGameLoop.
- Counts are the program's own: a negative count given to StartQuiz asks
  nothing and, as in the program, still adds a quiz with a negative total.
  The menu never passes one; the Progress lemmas assume a count that is not
  negative.
