# Recycle Rush quiz engine — a Dafny model

Recycle Rush is a quiz game about environmental topics. A player picks one of
four topics, then one of five levels in it, and answers questions by dragging
an option onto a drop zone. This project models the game's progression logic:

- **QuizSlice** (`quiz_slice.dfy`): the Redux slice that holds one quiz
  session (topic, level, questions, current index, selected answer, score,
  answered and finished flags) and its five reducers `setQuizData`,
  `selectAnswer`, `nextQuestion`, `retryLevel` and `setNextLevel`, as pure
  functions on an immutable `QuizState`. Also covered: the slice reducer over
  an `Action` type, and the store running a sequence of actions.
- **LevelSelector** (`level_selector.dfy`): the five levels of a topic, the
  level lock rule, the "completed" badge and the click guard.
- **Home** (`home.dfy`): the fixed topic order, the topic lock rule over the
  progress record (`progress[t] || 0`), topic selection and the hand-off to
  the level picker.
- **QuestionCard** (`question_card.dfy`): the drop handler (ignored once
  answered; correct on exact string equality), the drop-zone text and which
  option tiles can be dragged.
- **QuizPlayer** (`quiz_player.dfy`): the simple player that loads a topic's
  questions, advances on every answer, counts correct ones and picks between
  the "no questions", finished and active views.
- **QuizData** (`quiz_data.dfy`): the shared `Option`, `Result` and
  `Question` types, and `CountMatches`, the reference score of a playthrough
  (how many picks equal their question's answer).

The central invariant is `QuizSlice.Valid`: with questions loaded the index
names a question, and the score never exceeds the questions reached so far.
It also says a finished session sits on its last question. Every reducer keeps it, and so does any run of the store. Both players are
also shown to score exactly the picks that match their answers over a whole
playthrough (`QuizSlice.PlayScoresMatches`, `QuizPlayer.DropsScoreMatches`).

Modelling choices:

- `selectAnswer` reads `questions[currentIndex].answer` without a bounds
  check. When the index is past the end, as after loading an empty level,
  that read throws. The model returns `Err(NoQuestionAt(i))` there. When a
  reducer throws, the store keeps its previous state, and `RunStore` does
  the same.
- Levels and progress values are JavaScript numbers. They are modelled as
  `int`, so NaN and fractional values are not covered.
- The quiz player does not pass `answered` to its question card. The card
  therefore sees a falsy flag and reports every drop. `QuizPlayer.Drop`
  calls the card's handler with `answered = false`.
- `nextQuestion` moves on whether or not the current question was
  answered, and the slice keeps only the current answer, not one per
  question. The model does the same.
- The level rule "level n is unlocked iff n <= lastCompletedLevel + 1" holds
  for every level from 2 up. For level 1 it holds only when the recorded
  level is not negative, because level 1 is always unlocked
  (`LevelSelector.UnlockedIff`).

## Model

| member | source | states |
|---|---|---|
| QuizSlice.InitialState | src/state/quizSlice.ts:28-37 | the store starts with no topic, level 1, no questions and all progress fields at their start values, and the session invariant holds |
| QuizSlice.SetQuizData | src/state/quizSlice.ts:44-56 | loading keeps exactly the given topic, level and questions, resets index, score, selected answer, answered and finished, and yields a valid session whatever the previous state |
| QuizSlice.SelectAnswer | src/state/quizSlice.ts:59-68 | a no-op once answered or finished; otherwise records the answer, sets answered, and adds one point exactly when the answer equals the current question's answer; it fails (throws) exactly when it must read a question past the end; keeps the session invariant |
| QuizSlice.NextQuestion | src/state/quizSlice.ts:71-79 | never changes the score; advances and clears the answer while another question follows, otherwise marks finished and keeps the index; keeps the index in range and the score bound |
| QuizSlice.RetryLevel | src/state/quizSlice.ts:82-88 | keeps topic, level and questions and returns every progress field to its start value, giving a valid session |
| QuizSlice.SetNextLevel | src/state/quizSlice.ts:91-99 | replaces level and questions, keeps the topic, resets the progress fields, giving a valid session |
| QuizSlice.RetryIsReload | src/state/quizSlice.ts:44-88 | a retry equals reloading the session's own topic, level and questions |
| QuizSlice.NextLevelIsReloadOfSameTopic | src/state/quizSlice.ts:91-99 | moving to a next level equals loading that level's questions under the same topic |
| QuizSlice.RetryIdempotent | src/state/quizSlice.ts:82-88 | retrying twice equals retrying once, and an answer given just before a retry leaves no trace |
| QuizSlice.SelectAnswerOneShot | src/state/quizSlice.ts:60-66 | a second selection on the same question changes nothing, so the score rises by at most one per question |
| QuizSlice.SelectAnswerFailsOnlyWhenEmpty | src/state/quizSlice.ts:63 | on a valid session the unguarded read fails exactly when no questions are loaded and the session is neither answered nor finished |
| QuizSlice.NextQuestionSkipsUnanswered | src/state/quizSlice.ts:71-75 | moving on does not require an answer: an unanswered question is skipped without a point |
| QuizSlice.ScoreBound | src/state/quizSlice.ts:60-79 | on a valid session, score <= index + (answered ? 1 : 0) <= number of questions |
| QuizSlice.RunScoreAtMostAnswers | src/state/quizSlice.ts:59-99 | over any run of actions the score grows by at most the number of `selectAnswer` actions dispatched: only a selection can add a point, and at most one |
| QuizSlice.Reduce | src/state/quizSlice.ts:42-100 | only `selectAnswer` can fail, and every action keeps the session invariant |
| QuizSlice.RunStore | src/state/quizSlice.ts:39-101 | any sequence of actions, with a failing action leaving the state unchanged, keeps the session invariant and the score within the number of questions |
| QuizSlice.ReachableStatesValid | src/state/quizSlice.ts:28-101 | every state reachable from the initial state is valid and scores at most the number of its questions |
| QuizSlice.PlayScoresMatches | src/state/quizSlice.ts:59-79 | answering and moving on once per question never fails, scores exactly the picks equal to their questions' answers, and finishes exactly when the last question is answered |
| QuizSlice.PlayWholeLevel | src/state/quizSlice.ts:44-79 | a freshly loaded non-empty level played to the end is finished with score equal to the number of correct picks |
| QuizSlice.PerfectScoreIff | src/state/quizSlice.ts:60-66 | a whole level scores full marks exactly when every pick equals its question's answer, and zero exactly when none does |
| QuizData.CountMatchesExtremes | src/state/quizSlice.ts:64 | the reference score is full exactly when every pick equals its answer and zero exactly when none does |
| LevelSelector.Levels | src/components/LevelSelector.tsx:11-25 | the offered levels are exactly 1..5, each once, in increasing order |
| LevelSelector.LastCompletedOrDefault | src/components/LevelSelector.tsx:16 | a missing `lastCompletedLevel` counts as 0 |
| LevelSelector.Frontier | src/components/LevelSelector.tsx:25-27 | the unlocked levels form the prefix 1..min(5, max(1, last + 1)) |
| LevelSelector.Buttons | src/components/LevelSelector.tsx:25-44 | one button per level; a button is unlocked exactly up to the frontier, shows the badge exactly when level <= lastCompletedLevel, and a badge implies unlocked |
| LevelSelector.ClickLevel | src/components/LevelSelector.tsx:32 | `onSelectLevel(topic, level)` is called exactly for unlocked levels, with the clicked arguments |
| LevelSelector.FirstLevelAlwaysUnlocked | src/components/LevelSelector.tsx:27 | level 1 is unlocked and clickable for every recorded level, negative ones included |
| LevelSelector.UnlockedIff | src/components/LevelSelector.tsx:27 | from level 2 up, and for level 1 with non-negative progress, a level is unlocked iff level <= lastCompletedLevel + 1 |
| LevelSelector.UnlockMonotone | src/components/LevelSelector.tsx:25-27 | raising lastCompletedLevel never locks a level and never lowers the frontier |
| LevelSelector.CompletedImpliesUnlocked | src/components/LevelSelector.tsx:39-44 | a completed level is unlocked |
| LevelSelector.DefaultUnlocksOnlyFirst | src/components/LevelSelector.tsx:16-27 | with the default lastCompletedLevel only level 1 of the five is unlocked |
| Home.ProgressOrDefault | src/components/Home.tsx:21 | a missing progress prop is the empty record |
| Home.ProgressOf | src/components/Home.tsx:29 | the lookup with its zero default is the recorded value when present and 0 when absent |
| Home.Grid | src/components/Home.tsx:53-56 | one card per topic in the fixed order; the first is unlocked, each later one exactly when its predecessor's entry is present and equals 5 |
| Home.ViewOf | src/components/Home.tsx:24-31 | the level picker shows exactly when a non-empty topic id is selected, fed that topic's recorded level or 0; the topic grid otherwise |
| Home.ClickTopic | src/components/Home.tsx:61 | a click selects the topic when it is unlocked and leaves the selection unchanged when it is locked |
| Home.Back | src/components/Home.tsx:33 | the back button clears the selection |
| Home.BackShowsGrid | src/components/Home.tsx:33 | after the back button the home screen shows the topic grid for the current progress |
| Home.PickLevel | src/components/Home.tsx:27-30 | `onStartQuiz(topic, level)` is called exactly for levels unlocked by that topic's recorded level, with the clicked arguments |
| Home.TopicsDistinct | src/components/Home.tsx:14-19 | the four topic ids are distinct and non-empty |
| Home.FirstTopicAlwaysUnlocked | src/components/Home.tsx:55-56 | topic 0 is unlocked and selectable for every progress record |
| Home.TopicUnlockedIff | src/components/Home.tsx:56 | a later topic is unlocked iff the previous topic's entry is present and exactly 5; an absent entry or a value above 5 locks it |
| Home.OnlyPredecessorMatters | src/components/Home.tsx:56 | changing any entry other than the preceding topic's leaves a topic's lock status unchanged |
| Home.LockedTopicIgnored | src/components/Home.tsx:61 | clicking a locked topic leaves the screen as it was |
| Home.UnlockedTopicOpensPicker | src/components/Home.tsx:24-31 | clicking an unlocked topic opens its level picker with the recorded level, or 0 when absent |
| Home.GateIsNotTransitive | src/components/Home.tsx:54-56 | a record can unlock the third topic while the second stays locked, since only the immediate predecessor is consulted |
| Home.FreshPlayerStartsAtFirstTopicFirstLevel | src/components/Home.tsx:21-30 | with no progress only the first topic, and in it only level 1, can be started |
| QuestionCard.HandleDrop | src/components/QuestionCard.tsx:36-39 | a drop is ignored exactly when answered; otherwise `onAnswer` gets the dropped text unchanged and a correctness flag that is true exactly on string equality with the answer |
| QuestionCard.DropZoneText | src/components/QuestionCard.tsx:77 | the zone shows the question's answer once answered and the placeholder before |
| QuestionCard.Tiles | src/components/QuestionCard.tsx:81-93 | one tile per option in order, each draggable exactly when not answered |
| QuestionCard.AnsweredCardIsInert | src/components/QuestionCard.tsx:36-93 | an answered card ignores drops, has no draggable tile and shows the correct answer |
| QuestionCard.UnansweredCardIsLive | src/components/QuestionCard.tsx:36-93 | an unanswered card reports every drop and every tile can be dragged, so drops are accepted exactly when tiles can be dragged |
| QuestionCard.ExactMatchOnly | src/components/QuestionCard.tsx:38 | only the answer string itself is correct; a string that differs only in letter case is wrong |
| QuizPlayer.Start | src/components/QuizPlayer.tsx:17-19 | the player starts with no questions, index 0 and score 0, satisfying its invariant |
| QuizPlayer.Load | src/components/QuizPlayer.tsx:25-29 | after loading, the questions are the topic's list or empty when the topic is absent, and index and score are 0 |
| QuizPlayer.HandleAnswer | src/components/QuizPlayer.tsx:33-36 | the index always advances by one, the score rises by one exactly when correct, and score <= index is kept |
| QuizPlayer.ViewOf | src/components/QuizPlayer.tsx:38-70 | empty list gives "no questions" whatever the index; otherwise finished iff index >= length, and active exactly when index < length, showing question index as position index + 1 of length |
| QuizPlayer.Drop | src/components/QuizPlayer.tsx:62-70 | a drop outside the active view changes nothing; in it the index advances by one and a point is added exactly when the text equals the current answer; keeps score <= index <= length |
| QuizPlayer.Run | src/components/QuizPlayer.tsx:21-36 | any sequence of loads and drops from a state with score <= index <= length keeps that invariant, so score never exceeds the number of questions |
| QuizPlayer.DropsScoreMatches | src/components/QuizPlayer.tsx:33-36 | dropping one text per remaining question advances once per drop and scores exactly the texts equal to their questions' answers |
| QuizPlayer.PlayWholeTopic | src/components/QuizPlayer.tsx:25-60 | loading a non-empty topic and answering every question ends on the finished view with the number of correct drops out of the list length |
| QuizPlayer.EmptyShowsNoQuestions | src/components/QuizPlayer.tsx:38-46 | an empty question list, including the state before loading, shows "no questions" |

## Left out

- Rendering, styling and animation: the Lottie and confetti effects, framer-motion, and the `setTimeout`-driven animation state of the question card. They are presentation only.
- Drag-and-drop mechanics (`useDrag`/`useDrop`). Only the resulting `handleDrop(text)` decision and the `canDrag` flag are modelled.
- The `fetch` of the dataset, JSON parsing and the error log in the quiz player. These are I/O, so the model takes the parsed dataset as a parameter. A failed fetch simply produces no `Loaded` event.
- `src/App.tsx`. It is a thin home/quiz view toggle. It passes `onSelectTopic`, but the home screen expects `onStartQuiz`, so it does not connect the home screen to a quiz.
- `src/components/scenes/ThreeScene.tsx` and `src/components/Lotties.tsx`: wrappers over 3D and animation libraries with no logic.
- Saving the progress record. The home screen only reads the `progress` prop; where that record comes from is not part of this model.
- A fetch that resolves after the topic has changed is applied like any other; the model has no notion of an outdated fetch.
- The slice's option shape `{label, image}`. Options and answers are strings, because the image carries no logic.
- JavaScript number semantics (NaN, fractions, `-0`). Levels, indices, scores and progress values are mathematical integers. A NaN or fractional progress value is not modelled.
- React's scheduling of state updates. Each handler's updates are applied together as one step.
