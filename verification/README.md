# TutorAgent core in Dafny

This project models the adaptive core of the TutorAgent tutoring backend and proves properties about it:

- **Per-user state** (`StateManager`). Every user has one record holding:
  - a bounded interaction log;
  - per-skill consecutive-error counters;
  - per-skill Bayesian Knowledge Tracing (BKT) masteries;
  - hint preferences;
  - hint-feedback totals.

  Every mutation of the in-memory store is a pure function from one store to the next.
- **BKT** (`Bkt`). The service's Bayes posterior, its learning transition, its stored update and its prediction of the next answer.
- **The dashboard's BKT mirror and the mastery-trajectory replay** (`Trajectory`). The mirror is proved to compute the same numbers as the service. Replaying a history is proved to give the masteries the service would have stored.
- **The intervention rule** (`Intervention`). Low mastery, too many consecutive errors, or a time over the limit.
- **The personalization service** (`Personalization`). Preferences that default to the `User` model's values, the adaptive hint style, and running feedback totals.
- **The question bank** (`QuestionService`). Loading CSV rows, lookup by id, the skill set, and the answer check.
- **The deterministic helpers of the evaluation harness** (`Evaluation`):
  - answer cleaning;
  - hint ratings;
  - the proxy answer check;
  - the simulated student's knowledge base;
  - the cumulative engagement, accuracy and grade metrics.
- **The test-output validator** (`Validator`). Brace-matched JSON extraction, dotted-path lookup, and the two check kinds.

Two support modules hold the shared vocabulary:

- `Options` models Python's `None` as an option type, plus `dict.get`.
- `PyStrings` models the Python `str` operations the core relies on: `strip`, `lower`, `int`, `find`/`index`, `in`, `split`, `join`, and slicing with negative indices.

Settings that the code reads from configuration become parameters:

- the four BKT parameters `p_l0`, `p_t`, `p_g`, `p_s`;
- the three intervention thresholds.

Probabilities are exact `real`s.

## Model

| member | source | states |
|---|---|---|
| StateManager.GetUserState | app/state_manager.py:12-26 | The first access creates the record with an empty BKT map, log and error map. Later accesses return the stored record unchanged. No other user's record changes. |
| StateManager.GetUserStateIdempotent | app/state_manager.py:20-26 | A record is created at most once, so a second access changes nothing. |
| StateManager.AppendBounded | app/state_manager.py:14-18 | Appending to a log bounded at 100 keeps the newest `min(n+1, 100)` entries and ends with the new one. Below the bound this is a plain append. At the bound the oldest entry is evicted. |
| StateManager.Logged | app/state_manager.py:33-42 | Logging one entry changes only the log and the error counters. The new entry comes last and the 100-entry bound is kept. |
| StateManager.AddLogEntry | app/state_manager.py:29-49 | If the entry cannot be built, the store is exactly what `get_user_state` leaves. Otherwise the entry is appended to the bounded log. BKT, preferences, feedback and all other users stay unchanged. |
| StateManager.AddLogEntryKeepsLogsBounded | app/state_manager.py:29-49 | No log ever grows beyond `MAX_LOG_SIZE`. |
| StateManager.GetConsecutiveErrors | app/state_manager.py:56-59 | The skill's counter, or 0 when it was never set. Only the record's creation happens as a side effect. |
| StateManager.CorrectAnswerResetsErrors | app/state_manager.py:37-40 | A correct "answered" entry for a skill sets that skill's counter to 0. |
| StateManager.IncorrectAnswerIncrementsErrors | app/state_manager.py:37-42 | An "answered" entry for a skill that is not correct adds exactly 1 to that skill's counter. |
| StateManager.OtherCountersUnchanged | app/state_manager.py:36-42 | An entry that is not an answer to `skill` leaves `skill`'s counter unchanged. |
| StateManager.GetBktMastery | app/state_manager.py:63-66 | The stored mastery for the skill, or the caller's default when none is stored. |
| StateManager.UpdateBktMastery | app/state_manager.py:68-71 | Stores the value for exactly one skill. Other skills, the log, counters, preferences, feedback and other users are unchanged. |
| StateManager.UpdateThenGetMastery | app/state_manager.py:63-71 | Reading after an update returns the stored value. Other skills read as before. |
| StateManager.GetLastNLogsAsWritten | app/state_manager.py:51-54 | As written, `list[-n:]` returns the last `n` entries for `0 < n <= len`, the whole log for `n > len`, and also the whole log for `n == 0`. For a negative `n` it drops the oldest `-n` entries, or all of them when `-n` reaches the length. |
| StateManager.LastZeroLogsReturnsEverything | app/state_manager.py:51-54 | Asking a one-entry log for its last 0 entries returns that entry. |
| StateManager.NegativeCountDropsOldest | app/state_manager.py:51-54 | Asking a two-entry log for its last -1 entries returns only the newer entry, not an empty list. |
| StateManager.GetLastNLogs | app/state_manager.py:51-54 | The corrected reading returns the newest `max(0, min(n, len))` entries as a suffix of the log. |
| StateManager.LastNLogsAgreeForPositive | app/state_manager.py:51-54 | For every positive `n`, the corrected reading equals the code as written. |
| Bkt.Clamp | app/services/bkt.py:39-40 | `max(0, min(1, x))` is a probability. It is `x` itself when `x` is already a probability, 0 below and 1 above. |
| Bkt.BayesStep | app/services/bkt.py:22-37 | When the evidence probability is 0, the prior is returned. Otherwise the result is a probability. |
| Bkt.Posterior | app/services/bkt.py:16-40 | A correct answer uses the likelihoods `(1 - p_s, p_g)` and an incorrect one `(p_s, 1 - p_g)`. Impossible evidence returns the prior unchanged. Possible evidence gives a probability, and so does any prior in [0, 1]. |
| Bkt.BayesStepIsRatio | app/services/bkt.py:25-27 | When the evidence is possible, the clamp never bites: the step is exactly Bayes' rule `lk * w / P(e)`. |
| Bkt.BayesStepDirection | app/services/bkt.py:22-37 | Evidence that is likelier when the skill is known never lowers the estimate. Evidence that is likelier when it is not known never raises it. |
| Bkt.LikelihoodsAreProbabilities | app/services/bkt.py:18-31 | With parameters in [0, 1], all four likelihoods are probabilities. |
| Bkt.PosteriorIsBayes | app/services/bkt.py:16-40 | For valid parameters and prior with possible evidence, the posterior is `P(e given known) * prior / P(e)`. |
| Bkt.PosteriorDirection | app/services/bkt.py:16-40 | When `p_g <= 1 - p_s`, a correct answer never lowers the posterior and an incorrect one never raises it. |
| Bkt.PosteriorIsProbability | app/services/bkt.py:16-40 | For a prior in [0, 1], the posterior is in [0, 1], including when the evidence is impossible. |
| Bkt.TransitionStaysBetween | app/services/bkt.py:51-53 | The learning step `post + (1 - post) * p_t` lies between `post` and 1. |
| Bkt.Learn | app/services/bkt.py:53-56 | The clamped transition is a probability. |
| Bkt.LearnIsUnclamped | app/services/bkt.py:53-56 | For probabilities, the clamp after the transition changes nothing, and learning never lowers the estimate. |
| Bkt.NextMastery | app/services/bkt.py:43-56 | The value `update_mastery` stores is always a probability. |
| Bkt.NextMasteryAtLeastPosterior | app/services/bkt.py:48-56 | The stored value is at least the posterior and equals the unclamped transition formula. |
| Bkt.CorrectAnswerNeverLowersMastery | app/services/bkt.py:43-56 | With `p_g <= 1 - p_s`, a correct answer never lowers the mastery, transition included. |
| Bkt.FullMasteryIsAbsorbing | app/services/bkt.py:43-56 | Mastery 1 stays 1 after any answer that is possible when the skill is known. |
| Bkt.LearningGainExample | app/services/bkt.py:43-56 | With `p_l0 = 0.2, p_t = 0.15, p_g = 0.2, p_s = 0.1`, a correct first answer moves 0.2 to exactly 0.6. |
| Bkt.UpdateMastery | app/services/bkt.py:43-59 | Reads the prior, defaulting to `p_l0`, and stores `NextMastery` for this skill only. Other skills and other users are untouched, and the user's record differs from the old one only in its BKT map, so the log, counters, preferences and feedback scores are kept. |
| Bkt.UpdateThenRead | app/services/bkt.py:43-66 | After an update, reading `skill` gives `NextMastery` of its previous reported value. Every other skill reads as before. |
| Bkt.UpdateKeepsMasteriesProbabilities | app/services/bkt.py:43-59 | If every stored mastery is in [0, 1], it stays so after any update. |
| Bkt.Prediction | app/services/bkt.py:65-68 | For a mastery in [0, 1], the predicted probability of a correct answer lies between `p_g` and `1 - p_s`. |
| Bkt.PredictionBetween | app/services/bkt.py:65-68 | The prediction is `p_g` moved towards `1 - p_s` in proportion to the mastery, so it lies between them. |
| Bkt.PredictCorrectProbability | app/services/bkt.py:63-69 | The result is `m * (1 - p_s) + (1 - m) * p_g` for the stored mastery `m`, or for `p_l0` when the skill has none. It lies between `p_g` and `1 - p_s`. Only the record's creation happens as a side effect. |
| Bkt.PredictionMonotone | app/services/bkt.py:65-68 | When guessing is no likelier than not slipping, a higher mastery never predicts a lower probability of a correct answer. |
| Bkt.CorrectAnswerNeverLowersPrediction | app/services/bkt.py:43-69 | For informative parameters, recording a correct answer never lowers the next predicted probability of a correct answer on that skill. |
| Trajectory.MirrorUpdate | streamlit_app/queries.py:33-36 | The dashboard's update is a probability. |
| Trajectory.MirrorBayesAgrees | streamlit_app/queries.py:19-31 | The mirror's single Bayes formula, which chooses the likelihoods first, equals the service's step. |
| Trajectory.MirrorAgreesWithService | streamlit_app/queries.py:19-36 | The mirror's posterior and mastery update equal those of `BKTService` for every input. |
| Trajectory.Skills | streamlit_app/queries.py:129 | The distinct skills of the history: every row's skill, and nothing else. |
| Trajectory.Initial | streamlit_app/queries.py:128-131 | Every skill of the history starts at `p_l0`. |
| Trajectory.Step | streamlit_app/queries.py:140-153 | A skipped row, with no answer, changes nothing. An answered row changes only its own skill, to the mirror's update. |
| Trajectory.SnapshotAfter | streamlit_app/queries.py:140-157 | Each snapshot covers exactly the skills of the history. |
| Trajectory.Replay | streamlit_app/queries.py:118-166 | An empty history gives no rows. Otherwise there are `|h| + 1` snapshots, and snapshot `i` is the state after the first `i` rows. |
| Trajectory.ComputeTrajectory | streamlit_app/queries.py:118-166 | The loop's list of snapshots is the replay. |
| Trajectory.ReplayStartsAtPrior | streamlit_app/queries.py:134-137 | Interaction 0 holds every skill at `p_l0`. |
| Trajectory.ReplayStepEffect | streamlit_app/queries.py:145-157 | A skip repeats the previous snapshot. An answer changes only its skill, to the mirror's update of the previous value. |
| Trajectory.SnapshotsAreProbabilities | streamlit_app/queries.py:128-158 | With `p_l0` in [0, 1], every snapshot value is a probability. |
| Trajectory.ReplayMatchesService | streamlit_app/queries.py:140-158 | Replaying the history gives, for every skill, the mastery `BKTService` reports after running `update_mastery` on the answered rows in order from an empty BKT record. |
| Intervention.Trigger | app/services/intervention.py:15-28 | Rule by rule, in order: low mastery iff `mastery < threshold`. Errors iff the mastery rule does not fire and `errors >= max`. Time iff neither earlier rule fires and a known time exceeds the limit. |
| Intervention.CheckIntervention | app/services/intervention.py:6-31 | True exactly when some rule fires. |
| Intervention.InterventionIsDisjunction | app/services/intervention.py:15-31 | The decision is the plain disjunction of the three conditions, so the order of the checks does not matter. |
| Intervention.TimeRuleIsStrict | app/services/intervention.py:25-28 | An unknown time never fires on its own, and a time exactly at the limit is not slow. |
| Intervention.InterventionIsMonotone | app/services/intervention.py:15-28 | Lower mastery, more errors or a longer time never withdraws an intervention. |
| Personalization.DefaultPreferences | app/models/user.py:4-8 | The `User` model's dict has exactly four fields: the user name, an empty password, "Worked Example" and "Beginner". |
| Personalization.GetUserPreferences | app/services/personalization_service.py:8-14 | Stored preferences are returned unchanged. A user without preferences gets the defaults, stored. Only this user's `preferences` field can change. |
| Personalization.GetUserPreferencesIdempotent | app/services/personalization_service.py:8-14 | The defaults are installed only once, so a second read changes nothing. |
| Personalization.UpdateUserPreferences | app/services/personalization_service.py:16-26 | Updating the preferences gives the union of the keys. Updated keys take the new values. Other keys keep the old or default values. Only `preferences` changes. |
| Personalization.GetAdaptiveHintStyle | app/services/personalization_service.py:28-36 | The style is the stored `preferred_hint_style`, or "Worked Example" when that key is absent. |
| Personalization.NewUserGetsWorkedExample | app/services/personalization_service.py:28-36 | A user who never set preferences gets "Worked Example". |
| Personalization.UpdatedStyleIsUsed | app/services/personalization_service.py:16-36 | The style set by an update is the style returned afterwards. |
| Personalization.OtherUsersUpdatesAreInvisible | app/services/personalization_service.py:16-36 | One user's update never changes another user's hint style. |
| Personalization.RecordFeedback | app/services/personalization_service.py:38-49 | Adds the rating to the style's total and 1 to its count, starting from `{0, 0}`. Other styles and the rest of the record are unchanged. |
| Personalization.RecordedTotalsAreSumAndCount | app/services/personalization_service.py:38-51 | After recording a sequence of ratings from zero, the pair is their sum and their number. Its quotient is therefore their mean. |
| QuestionService.ParseRow | app/services/question_service.py:24-43 | A row parses iff all eight columns are present and `int(id)` succeeds. The id, the question text, and the trimmed correct answer and skill are taken from the row. The four answer columns must be present, but `Question` has no field for them, so they are dropped. |
| QuestionService.ParseRowAsWritten | app/services/question_service.py:24-43 | As written, a row can parse only if the loader's arguments cover the `Question` model's required fields. |
| QuestionService.WellFormedRowIsSkipped | app/models/question.py:5-11 | Every row the loader means to accept is rejected, because `question_type` is required and never passed. |
| QuestionService.AsWrittenLoadsNothing | app/services/question_service.py:24-43 | As written, no row is ever loaded. |
| QuestionService.QuestionTypeIsNotPassed | app/services/question_service.py:25-36 | `question_type` is a required field of the model and not one of the loader's arguments, so the arguments never cover the required fields. |
| QuestionService.AddQuestion | app/services/question_service.py:37-39 | Appending a question keeps the bank consistent. The id index points at the last question with each id, and the skill set is that of the list. |
| QuestionService.LoadRows | app/services/question_service.py:16-43 | Loading rows gives a consistent bank whose list is the parsed rows in file order. |
| QuestionService.LoadQuestions | app/services/question_service.py:16-55 | With the corrected `ParseRow`: everything is reset first. A missing file leaves the bank empty. Otherwise the loop's bank is the consistent bank of the parsed rows. |
| QuestionService.GetQuestionById | app/services/question_service.py:61-62 | Over the corrected bank, a question is found iff some loaded question has that id, and the found question carries it. |
| QuestionService.LoadedQuestionIsFound | app/services/question_service.py:37-62 | Over the corrected bank, every loaded question that no later row overrides is found by its id. |
| QuestionService.GetAllSkills | app/services/question_service.py:64-65 | Exactly the skills of the loaded questions. |
| QuestionService.CheckAnswer | app/services/question_service.py:67-75 | Over the corrected bank, `None` iff the id is unknown. Otherwise true iff the trimmed answer equals the trimmed correct answer. |
| QuestionService.OwnAnswerIsAccepted | app/services/question_service.py:67-75 | Over the corrected bank, submitting a loaded question's own correct answer is accepted. |
| QuestionService.PaddingIsIgnored | app/services/question_service.py:67-75 | Whitespace around the submitted answer never changes the verdict. |
| QuestionService.CheckIsCaseSensitive | app/services/question_service.py:67-75 | The lower-case form of a one-letter upper-case answer is rejected. |
| PyStrings.Strip | app/services/question_service.py:75 | `strip()` never lengthens a string, and what it returns has no whitespace at either end. |
| PyStrings.StripIgnoresPadding | app/services/question_service.py:75 | Whitespace around a string does not change its `strip()`. |
| PyStrings.StripIsSlice | app/services/question_service.py:75 | `s.strip()` is a contiguous slice of `s`. |
| PyStrings.ParseInt | app/services/question_service.py:26 | `int(s)` succeeds only on a string that is not blank. |
| PyStrings.IndexFrom | run_and_validate_tests.py:47-49 | `s.index(t, start)` is the first occurrence at or after `start`. It is `None`, the `ValueError`, exactly when `t` occurs nowhere from `start` on. |
| PyStrings.Lower | evaluation/run_evaluation.py:266-267 | `lower()` keeps the length and maps each character through ASCII lower-casing. |
| PyStrings.Split | run_and_validate_tests.py:78 | `split('.')` returns at least one piece, and no piece contains the separator. |
| PyStrings.SplitJoin | run_and_validate_tests.py:78 | Joining the pieces of `split(c)` with `c` gives back the string. |
| PyStrings.SplitConcat | run_and_validate_tests.py:78 | Splitting `a + c + b` is splitting `a`, then splitting `b`. |
| PyStrings.WordsOccur | evaluation/run_evaluation.py:274 | Every word of `split()` occurs in the string. |
| PyStrings.SliceStart | app/state_manager.py:54 | Python's start index for `xs[k:]`, including negative `k`. |
| Evaluation.ParseLlmAnswer | evaluation/run_evaluation.py:65-71 | For a non-"Expert" persona, or when no "Verification:" appears in any case, the result is the trimmed answer. Otherwise it is shorter than the raw answer and contains no marker. |
| Evaluation.CutHasNoMarker | evaluation/run_evaluation.py:67-70 | The trimmed text before the first marker contains no marker, in any case. |
| Evaluation.RateHint | evaluation/run_evaluation.py:245-251 | The rating is in 1..5. It is 3 iff skipped, 5 iff answered correctly, and 1 iff answered wrongly. |
| Evaluation.RatingTotalBounds | evaluation/run_evaluation.py:245-251 | `n` ratings sum to between `n` and `5n`. |
| Evaluation.RatingsSumToTotal | evaluation/run_evaluation.py:245-251 | The ratings of a sequence of outcomes sum to the running total of their ratings. |
| Evaluation.RecordedRatingsStayInScale | evaluation/run_evaluation.py:245-251 | If the simulated student's ratings were recorded with `record_feedback` (app/services/personalization_service.py:38-49) for one style, starting from `{0, 0}`, the pair would be the total of the ratings and their number. The total lies between the count and five times the count, so the mean rating would stay in 1..5. The evaluation runner never makes this call (see "Left out"). |
| Evaluation.ContentWords | evaluation/run_evaluation.py:273-274 | Exactly the non-stop-words of the answer survive, and nothing else. |
| Evaluation.RequiredTokens | evaluation/run_evaluation.py:273-277 | The required tokens are the content words. When every word is a stop word, all words are required. There are none only for a blank answer. |
| Evaluation.ProxyValidation | evaluation/run_evaluation.py:262-285 | The loop returns exactly the proxy's verdict. Multiple choice needs equality after trimming and lower-casing. Other types need every required token to be a substring, or equality when there are no tokens. |
| Evaluation.AllContained | evaluation/run_evaluation.py:282-285 | The early-exit loop returns true iff every token occurs in the answer. |
| Evaluation.CorrectAnswerIsAccepted | evaluation/run_evaluation.py:262-285 | The correct answer itself is always accepted. |
| Evaluation.ProxyIgnoresPadding | evaluation/run_evaluation.py:266-267 | Whitespace around the user's answer never changes the proxy's verdict. |
| Evaluation.MissingTokenRejects | evaluation/run_evaluation.py:282-285 | For a non-multiple-choice question, missing any one required token rejects the answer. |
| Evaluation.CorrectAnswerText | evaluation/run_evaluation.py:97-108 | For anything but a multiple-choice question with a non-empty index, the recorded text is the index itself. |
| Evaluation.MemoryParts | evaluation/run_evaluation.py:92-111 | One to three parts, the first always being the quoted question. |
| Evaluation.Memory | evaluation/run_evaluation.py:113 | A memory starts with '-', so it is never the header. |
| Evaluation.UpdateKnowledgeBase | evaluation/run_evaluation.py:74-114 | A wrong answer without a hint changes nothing. Otherwise the base only grows: the header comes first when it held at most the source text, and the memory comes last. |
| Evaluation.HeaderWrittenOnce | evaluation/run_evaluation.py:82-87 | Over any run of interactions, the header is written once, right after the source text, and never again. The base grows iff some interaction teaches. |
| Evaluation.Ratio | evaluation/run_evaluation.py:561-563 | A zero denominator gives 0. Otherwise a fraction in [0, 1], equal to 1 when numerator and denominator agree. |
| Evaluation.Series | evaluation/run_evaluation.py:546-567 | One metrics row per results row. |
| Evaluation.ComputeMetrics | evaluation/run_evaluation.py:535-567 | The loop's lists are the per-prefix metrics of the rows. |
| Evaluation.CountsOrdered | evaluation/run_evaluation.py:552-559 | Correct answers never exceed attempts, and attempts never exceed opportunities. |
| Evaluation.SeriesIsPrefixMetrics | evaluation/run_evaluation.py:546-567 | Row `i` of the series is the metrics of the first `i + 1` rows. |
| Evaluation.MetricsAreFractions | evaluation/run_evaluation.py:561-563 | Engagement, accuracy and grade are in [0, 1] at every row. |
| Evaluation.ZeroDenominators | evaluation/run_evaluation.py:561-563 | Each metric is 0 before its first denominator event. |
| Validator.NewValidator | run_and_validate_tests.py:36-38 | A fresh validator holds the block and an empty cache. |
| Validator.FirstBalanced | run_and_validate_tests.py:52-62 | Finds the first index from `j` on where the brace depth is 0, or reports that none exists. |
| Validator.BlockEnd | run_and_validate_tests.py:52-62 | The end of the block is the first position after `start` where the brace depth returns to 0. `None` means it never does. |
| Validator.ScanBraces | run_and_validate_tests.py:52-65 | The brace-counting loop with its `break` computes exactly that end. |
| Validator.FindJsonAfter | run_and_validate_tests.py:40-72 | A cached identifier is answered from the cache. An absent identifier, a missing brace, an unbalanced block or a failed parse gives `None` with nothing cached. A success caches the parsed value. |
| Validator.FoundBlockIsBalanced | run_and_validate_tests.py:45-70 | What is parsed runs from the first `{` at or after the identifier to the brace that balances it. The depth stays positive in between. |
| Validator.FindIsCached | run_and_validate_tests.py:42-43 | Once found, the identifier's value comes from the cache, whatever the block would now parse to. |
| Validator.ParseStep | run_and_validate_tests.py:78 | A component is a list index iff it is all digits. Otherwise it is the key itself. |
| Validator.GetItem | run_and_validate_tests.py:79-81 | The `getitem` step in each case. A key in an object is looked up. An index into a list or a string succeeds iff it is in range. For a string it yields the one-character string at that index. Every other combination is `None`, from `KeyError`, `TypeError` or `IndexError`. |
| Validator.PathSteps | run_and_validate_tests.py:78 | One step per dot-separated component. |
| Validator.GetFromDottedPath | run_and_validate_tests.py:74-81 | Looking up `p.q` is looking up `p`, then `q` in the result. |
| Validator.DigitComponentIndexes | run_and_validate_tests.py:77-81 | An all-digit component indexes a list, `None` when out of range, and never finds a key of an object. |
| Validator.KeyComponentLooksUp | run_and_validate_tests.py:77-81 | Any other component is a key lookup in an object and fails on a list. |
| Validator.SplitOnce | run_and_validate_tests.py:107-111 | `split(':', 1)` gives two parts iff there is a colon. The first part has no colon, and the parts rejoin to the input. |
| Validator.CheckStringContains | run_and_validate_tests.py:94-101 | Passes iff the value is a substring of the block. A missing value raises `KeyError`, and a non-string raises `TypeError`. |
| Validator.CheckJsonValueEquals | run_and_validate_tests.py:103-124 | A missing field raises `KeyError`, and a non-string path raises `AttributeError`. A path without ':' fails. A pass needs a colon path. |
| Validator.Check | run_and_validate_tests.py:83-92 | Dispatches on `type`. An unknown type fails without raising and without touching the cache. |
| Validator.StringContainsPassesIff | run_and_validate_tests.py:83-101 | A `string_contains` check passes iff its value occurs in the block. |
| Validator.JsonCheckSplitsAtFirstColon | run_and_validate_tests.py:103-124 | The identifier is everything before the first ':'. The path is the rest, with surrounding dots stripped. The check passes iff the block is found and the value at that path equals `expected`. |
| Validator.MissingPathEqualsNull | run_and_validate_tests.py:113-124 | A path that is absent from a found block passes a check that expects `null`. |

## Left out

- HTTP endpoints, the database, LLM calls, PDF extraction, logging, clocks and randomness are left out. Log timestamps are dropped. The validator's `json.loads` is a parameter.
- Configuration is not modelled, so the BKT parameters and intervention thresholds are parameters. app/utils/config.py declares no `bkt_*` or `intervention_*` setting, so the `settings.*` reads of the BKT and intervention services would fail as written.
- The log entry type cannot be read from the source. app/models/log.py defines only `UserLog(user_id, timestamp, action, details)`, so `from app.models.log import LogEntry` at app/state_manager.py:4 fails when the module is imported. The model's `LogEntry` fields are taken from the `log_data` that app/endpoints/answer.py:62-69 passes. Its construction is `Option<LogEntry>`, with `None` when it raises. The `except Exception` of `add_log_entry` then leaves only the record's creation.
- A skill named `Interaction` is not modelled as colliding. streamlit_app/queries.py:136 and 156 write the interaction counter under the key `Interaction` in the same dictionary as the skills, so that skill's mastery would be overwritten. The model keeps the counter apart from the skills.
- An empty results log is not modelled as failing. With no rows, `results_df.groupby('question_number')` at evaluation/run_evaluation.py:525 raises `KeyError`. The model's `Evaluation.Series` of no rows is the empty series.
- Floating point is not modelled: IEEE rounding is replaced by exact reals. For example, `prob_evidence == 0` is exact.
- Only ASCII is modelled for string predicates. `lower()`, `isspace()`, `isdigit()` and regex `IGNORECASE` cover ASCII letters and digits only, plus the Python whitespace set. `int()` accepts no underscores. With ASCII digits, the knowledge base's `int()` fallback branch cannot be reached.
- The question bank's loader has several gaps:
  - CSV parsing itself is not modelled; each row is the column map `csv.DictReader` yields.
  - A short row's missing values are not modelled.
  - The partial bank left when an unexpected exception aborts the loop is not modelled.
  - `get_all_questions` only returns the list.
- QuestionService.GetAllSkills: the result is a set, because the order of `list(self.skills)` is unspecified.
- Python cross-type equality (`1 == 1.0`, `True == 1`) is not modelled; JSON values compare structurally. Brace counting ignores JSON string contents, as the code does.
- PyStrings.Strip: the contract states only the length bound and the trimmed ends. What `strip()` removes is pinned down by `PyStrings.StripIsSlice`, `PyStrings.StripIgnoresPadding` and `PyStrings.StripOfTrimmed`.
- PyStrings.ParseInt: the contract states only that a parse needs a non-blank string. The exact digits rule is the body.
- Evaluation.ParseLlmAnswer: for an "Expert" persona with a marker, the contract states that the result is shorter and marker-free. It does not state that it is the trimmed prefix before the first marker, which is the body.
- Evaluation.CorrectAnswerText: the multiple-choice option lookup, `options.split('|')[index - 1]`, is the body. The contract covers only the other branch.
- Trajectory.MirrorUpdate: its contract states only the [0, 1] bound. The equality with the service is `Trajectory.MirrorAgreesWithService`.
- Call sites in the endpoints are not modelled, and several of them do not match the definitions modelled here:
  - app/endpoints/answer.py:76 calls `check_intervention` with three arguments instead of five.
  - app/endpoints/proactive_hints.py:68-75 passes `check_intervention` a `consecutive_skips` argument that it does not accept.
  - app/endpoints/answer.py:53-58 and tests/test_stage_4_5_personalization.py:31-51 pass a `bkt_change` argument that `record_feedback` does not accept.
- The runner's ratings are never recorded. evaluation/run_evaluation.py:427 puts `feedback_rating` into the `/answer` payload, but `AnswerRequest` (app/endpoints/answer.py:15-20) has no such field, so it is dropped. The only `record_feedback` call, at app/endpoints/answer.py:53-58, passes a fixed rating of 3, and `/feedback` (app/endpoints/feedback.py:15-19) only prints. `Evaluation.RecordedRatingsStayInScale` therefore states what recording them would give, not a flow the code has.
- StateManager.GetLastNLogsAsWritten: the default `n = 10` of `get_last_n_logs` (app/state_manager.py:51) is not modelled, and callers pass `n` explicitly. The same holds for `StateManager.GetLastNLogs`.
- `final_status_map` and the retry loop of the evaluation runner are not modelled.
- The dashboard's other queries are not modelled.
- Four features of the product's design are not modelled, because the code does not implement them:
  - the epsilon-greedy hint-style bandit;
  - its blended reward of rating and mastery gain;
  - a skip-streak intervention rule;
  - a mastery-scaled time limit.

  The model follows the code. `get_adaptive_hint_style` returns the stored preference, and `record_feedback` adds the raw rating. `check_intervention` has three rules with a fixed time limit.

## Findings

| source | as written | input that shows it | evidently intended | confidence | as-written member | corrected member |
|---|---|---|---|---|---|---|
| app/state_manager.py:54 | `list(log)[-n:]` with `n == 0` is `list(log)[0:]`, the whole log. A negative `n` drops the oldest entries instead of returning none. | A log with one entry `e` and `get_last_n_logs(user, 0)` returns `[e]`. | The last `n` entries: none for `n <= 0` and at most the whole log. | not executed | StateManager.GetLastNLogsAsWritten, StateManager.LastZeroLogsReturnsEverything, StateManager.NegativeCountDropsOldest | StateManager.GetLastNLogs, StateManager.LastNLogsAgreeForPositive |
| app/services/question_service.py:25-36 | `Question(...)` is built without `question_type`, which app/models/question.py:8 requires. The validation error is a `ValueError`, caught at line 40, so every row is skipped and the bank stays empty. | A row with all eight columns and `id` "7". | Every row with all columns and an integer id becomes a question. | not executed | QuestionService.ParseRowAsWritten, QuestionService.WellFormedRowIsSkipped | QuestionService.ParseRow, QuestionService.LoadRows, QuestionService.LoadQuestions |
