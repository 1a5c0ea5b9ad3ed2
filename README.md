# EnglishC1QuizApp quiz engine in Dafny

This project models the adaptive quiz engine of EnglishC1QuizApp, a React Native vocabulary trainer, and proves properties of it. The model covers six pieces:

- **Word selection.** Restrict the corpus to words that have an example sentence. Then take either an exploration draw or a draw from the words the learner finds hard (no record, no attempt, or under 60 % success). The hard pool falls back to every valid word when it is empty. (`Selection`)
- **Question building.** Choose a same-type candidate pool, or the whole corpus when fewer than four same-type words exist. Run the bounded distractor loop (at most 200 draws, at most four distinct distractors, never the target). Add a tagged copy of the target and shuffle. (`Question`)
- **The quiz screen as an object.** Its state variables are the fields of `Screen.QuizScreen`: question, options, selected option, tallies, per-word records and feedback image. It has two transitions:
  - building a question;
  - answering, where the first answer wins and updates the aggregate tally and the word's `{correct, total}` record. (`Scoring` holds the record arithmetic.)
- **Sentence display.** The current screen splits the sentence at the seven-underscore blank. The legacy screen replaces every underscore run. (`Sentence`, with `Strings` for the JavaScript string operations)
- **The statistics screen's analysis.** It computes per-word rates, the red/yellow/green distribution with its divide-by-zero guard, the weak and strong lists with their sort orders, and the rounded general accuracy. (`Analyzer`)
- **The two translation lookups and the stored-language decision.** (`Translation`) The legacy screen's button colours are in `LegacyApp`.

Every `Math.random()` is a parameter: a `real` in [0, 1), turned into an index by `Types.Pick` (`Math.floor(u * n)`). The shuffle `sort(() => Math.random() - 0.5)` is an arbitrary permutation of positions. Each property is proved for all draws. Rates are exact rationals (`real`). The selection test `c / t < 0.6` is shown equal to the integer test `5c < 3t`.

The two legacy files, `App_old.tsx` and `src/screens/QuizScreen_old.tsx`, contain the same engine line for line. The model has it once, and the table below cites each copy's lines against the shared member. What only the legacy files have is modelled separately:

- the button colours, in `LegacyApp`;
- the `/_+/g` fill-in, `Sentence.FillBlanks`.

## Model

| member | source | states |
|---|---|---|
| Types.Pick | src/screens/QuizScreen.tsx:108 | `Math.floor(Math.random() * n)` with a draw in [0, 1) is a valid index below `n` |
| Selection.ValidWords | src/screens/QuizScreen.tsx:59 | a word is valid iff it is a corpus word with a non-empty sentence list |
| Selection.IsHard | src/screens/QuizScreen.tsx:65-70 | the `hardWords` filter: a word with a record but no attempt is hard, and a word answered correctly on every attempt is not |
| Selection.RatioBelowIff | src/screens/QuizScreen.tsx:68-69 | for a positive total, `correct / total < 0.60` holds exactly when `5*correct < 3*total` |
| Selection.IsHardIff | src/screens/QuizScreen.tsx:65-70 | a word is hard iff it has no record, has no attempt, or `5*correct < 3*total` (success below 0.60) |
| Selection.WeightedPool | src/screens/QuizScreen.tsx:65-72 | the pool is exactly the hard valid words when one exists, otherwise every valid word; it is never empty when valid words exist |
| Selection.SelectSmartWord | src/screens/QuizScreen.tsx:58-74 | for all draws: a word comes out iff some corpus word has a sentence, and it is such a word; the weighted branch returns a hard word whenever a hard valid word exists |
| Selection.ExplorationReachesEveryValidWord | src/screens/QuizScreen.tsx:61-62 | every word with a sentence is returned by the exploration branch for some draw |
| Question.SameTypeWords | src/screens/QuizScreen.tsx:102 | exactly the corpus words of the target's type whose word differs from the target's |
| Question.CandidatePool | src/screens/QuizScreen.tsx:99-104 | the same-type words (at least four, none the target) when the target has a non-empty type and there are at least four, otherwise the whole corpus; always a subset of the corpus |
| Question.Collect | src/screens/QuizScreen.tsx:106-114 | the loop's outcome from any state extends that state, never exceeds four, and keeps distractors distinct, non-target and from the pool |
| Question.CollectDistractors | src/screens/QuizScreen.tsx:106-114 | the `while` loop returns what `Collect` specifies, runs at most 200 iterations, collects at most four distinct non-target pool words, and ends short of four only after all 200 draws |
| Question.TagCorrect | src/screens/QuizScreen.tsx:116 | the copy is tagged correct, keeps the word, and differs from the corpus entry only in `isCorrect` |
| Question.Shuffle | src/screens/QuizScreen.tsx:117 | the shuffled list is a permutation of its input (the same multiset), has the same elements, and keeps words distinct |
| Question.PermutedSameMultiset | src/screens/QuizScreen.tsx:117 | a list that reads its input through a bijection of positions holds every element exactly as often as the input |
| Question.AssembleOptions | src/screens/QuizScreen.tsx:116-117 | the options are one longer than the distractors and hold exactly the distractors and the tagged target copy |
| Question.OptionsWellFormed | src/screens/QuizScreen.tsx:116-117 | one to five options with distinct words, containing the tagged target copy; every other option is a pool word; for an untagged pool exactly the target's option is tagged |
| Scoring.BumpStats | src/screens/QuizScreen.tsx:136-139 | exactly one counter rises by one: `correct` iff the answer is correct, `wrong` otherwise |
| Scoring.RecordOf | src/screens/QuizScreen.tsx:143 | a missing record reads as `{0, 0}`; a record read from well-formed statistics never has more successes than attempts |
| Scoring.RecordAnswer | src/screens/QuizScreen.tsx:143-148 | the answered word gets `total+1` and `correct+1` iff correct; every other record is unchanged; no key is lost; `correct <= total` is preserved |
| Scoring.FirstAnswerRecord | src/screens/QuizScreen.tsx:143-148 | the first answer on a word creates `{1, 1}` when correct and `{0, 1}` when wrong |
| Scoring.WrongAnswerKeepsHard | src/screens/QuizScreen.tsx:143-148 | a wrong answer leaves a hard word hard |
| Scoring.CorrectAnswerKeepsEasy | src/screens/QuizScreen.tsx:143-148 | a correct answer does not make a non-hard word hard |
| Scoring.Percentage | src/screens/QuizScreen.tsx:155-156 | 0 without attempts; otherwise the value `p` with `p * total == 100 * correct`, that is `100 * correct / total`, which lies in 0 .. 100 for a well-formed record |
| Scoring.SuccessRatePercent | src/screens/QuizScreen.tsx:153-156 | 0 for a missing record or zero total; otherwise `100 * correct / total` of the word's record; in 0 .. 100 for well-formed records |
| Scoring.HardIffShownBelowSixty | src/screens/QuizScreen.tsx:153-156 | the selector treats a word as hard iff the displayed percentage is below 60 |
| Strings.ReplaceFirst | src/context/LanguageContext.tsx:62 | a string-pattern `replace` changes only the first occurrence, and leaves the text unchanged when there is none |
| Strings.SplitFirstTwo | src/screens/QuizScreen.tsx:164 | `parts[0]` is the text before the first separator; `parts[1]` is the text up to the second separator or the end, or empty when there is no separator |
| Sentence.FilledSentence | src/screens/QuizScreen.tsx:164-171 | the shown text is `parts[0] + answer + parts[1]` of `split(blank)`: the text before the first blank, the answer, then the text up to a second blank (anything after it is dropped); without a blank the answer is appended |
| Sentence.RenderSentence | src/screens/QuizScreen.tsx:160-174 | nothing without a question, the raw sentence before an answer, the filled sentence after |
| Sentence.FilledOneBlank | src/screens/QuizScreen.tsx:164-171 | a sentence with one blank and no other underscore shows `before + answer + after` |
| Sentence.FilledDropsAfterSecondBlank | src/screens/QuizScreen.tsx:164-171 | with two blanks, the text after the second blank is dropped |
| Sentence.ScreensAgreeOnOneBlank | src/screens/QuizScreen.tsx:164-171 | on a one-blank sentence the current split and the legacy regex fill show the same text |
| Sentence.FillBlanks | src/screens/QuizScreen_old.tsx:191 | `replace(/_+/g, answer)` leaves a sentence without underscores unchanged |
| Sentence.FillBlanksFacts | src/screens/QuizScreen_old.tsx:191 | an answer without underscores leaves no underscore in the filled sentence |
| Sentence.FillBlanksKeepsPrefix | src/screens/QuizScreen_old.tsx:191 | text before the first underscore is kept |
| Sentence.FillBlanksReplacesRun | src/screens/QuizScreen_old.tsx:191 | a whole maximal underscore run becomes exactly one copy of the answer |
| Sentence.LegacyRender | src/screens/QuizScreen_old.tsx:191 | the raw sentence before an answer; after one, the sentence with every underscore run replaced by the answer (`FillBlanks`), so no underscore remains when the answer has none |
| Screen.BuildQuestion | src/screens/QuizScreen.tsx:80-123 | for all draws: a question is built iff some corpus word has a sentence, and then it is `Planned`: the word `selectSmartWord` picks from the current records, the sentence the sentence draw selects, the distractors `Collect` gathers from `CandidatePool`, and those plus the tagged target shuffled by the drawn permutation; the retry at lines 92-95 is proved unreachable |
| Screen.AssembledQuestionWellBuilt | src/screens/QuizScreen.tsx:97-123 | a question made of a sentence of a corpus word, good distractors and a shuffle is well built: the sentence belongs to the word, one to five distinct options, the tagged target among them, exactly one tagged for an untagged corpus |
| Screen.AssembledWellBuilt | src/screens/QuizScreen.tsx:97-123 | the question assembled around a corpus word with sentences, with any draws, is well built |
| Screen.AssembledFromPool | src/screens/QuizScreen.tsx:99-117 | every assembled option other than the target's is a candidate-pool word, so with the same-type pool every option has the target's type |
| Screen.PlannedWellBuilt | src/screens/QuizScreen.tsx:80-123 | the question the draws select is well built |
| Screen.PlannedWordHard | src/screens/QuizScreen.tsx:65-73 | in the weighted branch, when some word with a sentence is hard, the planned question asks about a hard word |
| Screen.PlannedOptionsFromPool | src/screens/QuizScreen.tsx:88-123 | the planned question asks about the selected word; its other options come from that word's candidate pool, and all share its type when the same-type pool is used |
| Screen.QuizScreen.constructor | src/screens/QuizScreen.tsx:37-49 | the screen starts without a question or selection; stored tallies and records are used when present, zero state otherwise |
| Screen.QuizScreen.GenerateNewQuestion | src/screens/QuizScreen.tsx:76-125 | clears selection and feedback, leaves the statistics alone, succeeds iff some word has a sentence; on success the question and options are the `Planned` question for the records held before the call, and otherwise they are unchanged |
| Screen.QuizScreen.HandleOptionSelect | src/screens/QuizScreen.tsx:127-151 | a second answer changes nothing; the first records the selection and feedback, bumps exactly one tally and updates only the question word's record; `correct <= total` is preserved |
| Screen.QuizScreen.ShownSentence | src/screens/QuizScreen.tsx:160-174 | nothing without a question; the raw sentence while nothing is selected; after an answer, the sentence filled at its first blank (`FilledSentence`) |
| Screen.QuizScreen.SuccessRateShown | src/screens/QuizScreen.tsx:153-158 | 0 for a word without a record or without attempts; otherwise `100 * correct / total` of the word's current record; in 0 .. 100 for well-formed records |
| Analyzer.RawData | src/screens/StatsScreen.tsx:55-60 | one row per record with its word, correct count and total; rate 0 without attempts, otherwise `100 * correct / total`; in 0 .. 100 for well-formed records |
| Analyzer.RatesMatchQuizScreen | src/screens/StatsScreen.tsx:55-60 | each row's rate is the percentage the quiz screen shows for that word |
| Analyzer.OneTier | src/screens/StatsScreen.tsx:63-65 | every row is in exactly one of red, yellow, green |
| Analyzer.TierCountsSum | src/screens/StatsScreen.tsx:63-65 | the three tier counts add up to the number of rows |
| Analyzer.SharesSumToHundred | src/screens/StatsScreen.tsx:82-86 | three counts summing to the total give percentages summing to 100 |
| Analyzer.ShareBounds | src/screens/StatsScreen.tsx:82-86 | each percentage lies in 0 .. 100 |
| Analyzer.Insert | src/screens/StatsScreen.tsx:70-77 | inserting into a sorted list keeps it sorted and adds exactly the one row |
| Analyzer.SortBy | src/screens/StatsScreen.tsx:70-77 | the sorted list is ordered by the comparator's key and is a permutation of its input |
| Analyzer.SortedSelection | src/screens/StatsScreen.tsx:70-77 | a sorted filtered list holds exactly the rows the filter keeps |
| Analyzer.AnalyzeData | src/screens/StatsScreen.tsx:54-89 | `totalCount` is 1 without records; the distribution is all zero without records; otherwise each share is its tier's row count divided by the number of records, times 100, and the shares sum to 100; `weakList` is exactly the rows under 60 ordered by rising rate; `strongList` is exactly the rows at 85 or more with at least 3 attempts, ordered by falling total; both are permutations of their filtered subsets and are disjoint |
| Analyzer.Round | src/screens/StatsScreen.tsx:96 | `Math.round` yields the integer within half a unit, halves rounded up |
| Analyzer.GeneralAccuracy | src/screens/StatsScreen.tsx:95-97 | 0 before any answer, otherwise in 0 .. 100 and within half a point of the exact percentage |
| Analyzer.RunAndEatRows | src/screens/StatsScreen.tsx:55-65 | the example records give rates 20 and 90; "run" is red, "eat" is green and strong, nothing is yellow |
| Analyzer.RunAndEatExample | src/screens/StatsScreen.tsx:54-89 | "run" at 1/5 is the only weak word, "eat" at 9/10 the only strong word, and the split is 50/0/50 |
| Translation.ContextBase | src/context/LanguageContext.tsx:58 | a non-empty current-language entry (present only when the language table has the key) wins; otherwise a non-empty English entry; otherwise the key; never empty for a non-empty key |
| Translation.SubstituteAll | src/context/LanguageContext.tsx:61-63 | with no parameters the text is unchanged |
| Translation.Translate | src/context/LanguageContext.tsx:57-67 | without parameters the base text is returned; with them, the `forEach` loop yields the substitutions applied in parameter order |
| Translation.SubstituteAppend | src/context/LanguageContext.tsx:61-63 | substitution proceeds parameter by parameter: two lists in a row equal their concatenation |
| Translation.AbsentPlaceholdersKeepText | src/context/LanguageContext.tsx:61-63 | parameters whose placeholders do not occur leave the text untouched |
| Translation.OnlyFirstPlaceholderFilled | src/context/LanguageContext.tsx:61-63 | when no `{k}` starts before a given one, that one is the only copy replaced and every later copy stays in the text |
| Translation.HookT | src/localization/index.ts:44-46 | a non-empty current-language entry wins, otherwise the raw English entry (possibly missing) |
| Translation.LookupsAgree | src/localization/index.ts:44-46 | the two `t`s agree whenever either language has a non-empty entry; otherwise the context returns the key and the hook an empty or missing entry |
| Translation.GetLanguage | src/localization/index.ts:8-19 | the stored language when present and non-empty, otherwise `en`; never empty |
| LegacyApp.ButtonColor | App_old.tsx:175-180 | white before a selection; afterwards green iff the option is tagged correct, red iff it is the selected untagged option, grey otherwise |
| LegacyApp.AnsweredColors | App_old.tsx:175-180 | after an answer, the correct option is the only green button, a wrong choice is red, every other button is grey, and no unselected button is red |

## Legacy copies

The legacy copies repeat the current screen's logic; each span below is modelled by the member named beside it.

| legacy span | member | what the copy does |
|---|---|---|
| App_old.tsx:59-79 | Selection.SelectSmartWord | the same selection as the current screen |
| App_old.tsx:69-76 | Selection.WeightedPool | hard words below 0.60, falling back to every valid word |
| App_old.tsx:111-115 | Question.CandidatePool | the same candidate-pool rule |
| App_old.tsx:117-125 | Question.CollectDistractors | the same bounded distractor loop |
| App_old.tsx:127-128 | Question.OptionsWellFormed | the same option assembly |
| App_old.tsx:81-136 | Screen.QuizScreen.GenerateNewQuestion | the same question building |
| App_old.tsx:138-166 | Screen.QuizScreen.HandleOptionSelect | the same first-answer-wins scoring |
| App_old.tsx:168-173 | Scoring.SuccessRatePercent | 0 without a record or attempt |
| src/screens/QuizScreen_old.tsx:57-73 | Selection.SelectSmartWord | the same selection as the current screen |
| src/screens/QuizScreen_old.tsx:64-69 | Selection.IsHardIff | the same 0.60 threshold, with a missing record hard |
| src/screens/QuizScreen_old.tsx:98-103 | Question.CandidatePool | the same candidate-pool rule |
| src/screens/QuizScreen_old.tsx:105-113 | Question.CollectDistractors | the same bounded distractor loop |
| src/screens/QuizScreen_old.tsx:115-116 | Question.OptionsWellFormed | the same option assembly |
| src/screens/QuizScreen_old.tsx:75-124 | Screen.QuizScreen.GenerateNewQuestion | the same question building |
| src/screens/QuizScreen_old.tsx:126-150 | Screen.QuizScreen.HandleOptionSelect | the same first-answer-wins scoring |
| src/screens/QuizScreen_old.tsx:142-149 | Scoring.RecordAnswer | only the current word's record changes, and `correct <= total` is preserved |
| src/screens/QuizScreen_old.tsx:152-157 | Scoring.SuccessRatePercent | 0 without a record or attempt |

## Left out

- Persistence is not modelled: the AsyncStorage reads and writes and the JSON encoding of statistics and settings. The screen's constructor takes what the store held, and absence means zero state. `GetLanguage` takes the outcome of the read and the parse as a parameter.
- React scheduling is not modelled: `useState`, `useEffect` and `useFocusEffect` ordering, and the asynchronous interleaving of the writes inside the answer handler. Each answer is one atomic transition.
- Probabilities are not modelled. This covers the 0.3/0.7 split, uniformity of the index draws, and the distribution of the random-comparator shuffle. Draws are parameters, and the shuffle is any permutation.
- Scoring.SuccessRatePercent: returns the number behind `getSuccessRateText`, not its `%`-prefixed text. The `toFixed(1)` and `% 1` formatting is not modelled.
- Rates use exact rational arithmetic in place of IEEE doubles. A rate that rounds across 0.6, 60 or 85 in floating point would be classified by the exact value.
- Screen.QuizScreen.GenerateNewQuestion: when no corpus word has a sentence, it reports `ok == false` and changes no question. The source instead throws a `TypeError` at line 88, outside its `try`.
- The self-recursive retry at src/screens/QuizScreen.tsx:92-95 is proved unreachable rather than modelled.
- Translation.Translate: parameter values are inserted literally. `String.replace` would interpret `$` patterns such as `$&` in them. The values are taken as already converted by `String(v)`, in the order `Object.entries` yields them.
- Sentence.FillBlanks: the answer is inserted literally. The regex `replace` would interpret `$` patterns in it.
- Translation.ContextBase: requires the current language to be one of the tables, as the `Language` type demands. A stored language outside the tables would make the source throw, and that case is not modelled.
- Translation.Translate: requires the current language to be one of the tables, for the same reason as `ContextBase`.
- Translation.HookT: requires the current language to be one of the tables. `getLanguage` returns any stored non-empty string, and for one outside the tables `translations[language][key]` throws; that case is not modelled.
- The language context's `loadLanguage` and `setLanguage`, the device-locale choice via `react-native-localize`, and the `useLanguage` provider guard are not modelled.
- Analyzer.AnalyzeData: states order and permutation of each list, but not the order among rows with equal keys. `Array.prototype.sort` keeps that order stable. The model's insertion sort also keeps it, but this is not proved.
- Analyzer.AnalyzeData: takes `Object.entries(wordStats)` as a list of entries. `Analyzer.Enumerates` says when such a list lists the map.
- Records are looked up as map keys. Lookups that hit JavaScript's object prototype (a word named `constructor`, say) are not modelled.
- The UI-only files are not modelled: the settings screen (language picker, reset by `AsyncStorage.clear`), the option button component, the navigation in `App.tsx`, the styles, and the legacy screen's `parseInt` colour choices.
