/**
  The quiz-session slice of the Redux store: an immutable session record and
  the five reducers that drive one playthrough of a level.
 */
module QuizSlice {
  import opened QuizData

  /** The session record held by the store. */
  datatype QuizState = QuizState(
    topic: string,
    level: int,
    questions: seq<Question>,
    currentIndex: nat,
    selectedAnswer: Option<string>,
    score: nat,
    answered: bool,
    finished: bool)

  /**
    `selectAnswer` reads `.answer` off `questions[currentIndex]` without a
    bounds check; past the end that is `undefined` and the read throws.
   */
  datatype ReducerError = NoQuestionAt(index: nat)

  /** The session invariant every reducer keeps. */
  predicate Valid(s: QuizState) {
    // with no questions nothing can have been answered or advanced past
    && (|s.questions| == 0 ==> s.currentIndex == 0 && !s.answered)
    // with questions the index always names one of them
    && (|s.questions| > 0 ==> s.currentIndex < |s.questions|)
    // at most one point per question reached so far
    && s.score <= s.currentIndex + (if s.answered then 1 else 0)
    // an answer is recorded exactly when the current question is answered
    && (s.answered <==> s.selectedAnswer.Some?)
    // a session only finishes on its last question
    && (s.finished ==> s.currentIndex + 1 >= |s.questions|)
  }

  /** The progress fields are at their starting values. */
  predicate AtStart(s: QuizState) {
    && s.currentIndex == 0
    && s.score == 0
    && s.selectedAnswer == None
    && !s.answered
    && !s.finished
  }

  /** The answer expected for the current question, when there is one. */
  function CurrentAnswer(s: QuizState): Option<string> {
    if s.currentIndex < |s.questions| then Some(s.questions[s.currentIndex].answer) else None
  }

  /** The store's state before any action: no topic, level 1, no questions. */
  function InitialState(): (s: QuizState)
    ensures Valid(s) && AtStart(s)
    ensures s.questions == [] && s.level == 1 && s.topic == ""
  {
    QuizState("", 1, [], 0, None, 0, false, false)
  }

  /** `setQuizData`: load a topic, level and question list and start over. */
  function SetQuizData(s: QuizState, topic: string, level: int, questions: seq<Question>): (r: QuizState)
    ensures r.topic == topic && r.level == level && r.questions == questions
    ensures AtStart(r)
    ensures Valid(r)
  {
    QuizState(topic, level, questions, 0, None, 0, false, false)
  }

  /** `selectAnswer`: record the player's answer for the current question, once. */
  function SelectAnswer(s: QuizState, answer: string): (r: Result<QuizState, ReducerError>)
    // it throws only when it must read a question that is not there
    ensures r.Err? <==> !s.answered && !s.finished && s.currentIndex >= |s.questions|
    ensures r.Err? ==> r.error == NoQuestionAt(s.currentIndex)
    // once answered or finished it is a no-op
    ensures s.answered || s.finished ==> r == Ok(s)
    // otherwise it records the answer and scores exactly on an exact match
    ensures r.Ok? && !s.answered && !s.finished ==>
      && r.value.answered
      && r.value.selectedAnswer == Some(answer)
      && (r.value.score == s.score + 1 <==> CurrentAnswer(s) == Some(answer))
      && (r.value.score == s.score <==> CurrentAnswer(s) != Some(answer))
      && r.value == s.(selectedAnswer := Some(answer), answered := true, score := r.value.score)
    ensures Valid(s) && r.Ok? ==> Valid(r.value)
  {
    if !s.answered && !s.finished then
      if s.currentIndex < |s.questions| then
        var correct := s.questions[s.currentIndex].answer;
        Ok(s.(selectedAnswer := Some(answer),
              answered := true,
              score := if answer == correct then s.score + 1 else s.score))
      else
        Err(NoQuestionAt(s.currentIndex))
    else
      Ok(s)
  }

  /** `nextQuestion`: advance, or mark the session finished on the last question. */
  function NextQuestion(s: QuizState): (r: QuizState)
    ensures r.score == s.score
    ensures r.topic == s.topic && r.level == s.level && r.questions == s.questions
    ensures s.currentIndex + 1 < |s.questions| ==>
      r.currentIndex == s.currentIndex + 1 && !r.answered && r.selectedAnswer == None
      && r.finished == s.finished
    ensures s.currentIndex + 1 >= |s.questions| ==>
      r.finished && r.currentIndex == s.currentIndex
      && r.answered == s.answered && r.selectedAnswer == s.selectedAnswer
    ensures Valid(s) ==> Valid(r)
  {
    if s.currentIndex + 1 < |s.questions| then
      s.(currentIndex := s.currentIndex + 1, selectedAnswer := None, answered := false)
    else
      s.(finished := true)
  }

  /** `retryLevel`: replay the same level from the start. */
  function RetryLevel(s: QuizState): (r: QuizState)
    ensures r.topic == s.topic && r.level == s.level && r.questions == s.questions
    ensures AtStart(r)
    ensures Valid(r)
  {
    s.(currentIndex := 0, selectedAnswer := None, answered := false, score := 0, finished := false)
  }

  /** `setNextLevel`: move on to another level of the same topic. */
  function SetNextLevel(s: QuizState, level: int, questions: seq<Question>): (r: QuizState)
    ensures r.topic == s.topic && r.level == level && r.questions == questions
    ensures AtStart(r)
    ensures Valid(r)
  {
    s.(level := level, questions := questions, currentIndex := 0, selectedAnswer := None,
       answered := false, score := 0, finished := false)
  }

  /** A retry is the same as reloading the session's own data. */
  lemma RetryIsReload(s: QuizState)
    ensures RetryLevel(s) == SetQuizData(s, s.topic, s.level, s.questions)
  {
  }

  /** A next level is a reload that keeps the topic. */
  lemma NextLevelIsReloadOfSameTopic(s: QuizState, level: int, questions: seq<Question>)
    ensures SetNextLevel(s, level, questions) == SetQuizData(s, s.topic, level, questions)
  {
  }

  /** Retrying twice is retrying once; retrying discards any answer just given. */
  lemma RetryIdempotent(s: QuizState, answer: string)
    ensures RetryLevel(RetryLevel(s)) == RetryLevel(s)
    ensures SelectAnswer(s, answer).Ok? ==> RetryLevel(SelectAnswer(s, answer).value) == RetryLevel(s)
  {
  }

  /** A second selection on the same question never changes anything, the score included. */
  lemma SelectAnswerOneShot(s: QuizState, first: string, second: string)
    requires SelectAnswer(s, first).Ok?
    ensures SelectAnswer(SelectAnswer(s, first).value, second) == SelectAnswer(s, first)
    ensures SelectAnswer(SelectAnswer(s, first).value, second).value.score <= s.score + 1
  {
  }

  /** On a valid session, `selectAnswer` throws exactly when the loaded level has no questions. */
  lemma SelectAnswerFailsOnlyWhenEmpty(s: QuizState, answer: string)
    requires Valid(s)
    ensures SelectAnswer(s, answer).Err? <==> |s.questions| == 0 && !s.answered && !s.finished
  {
  }

  /** Moving on does not need an answer: an unanswered question is skipped and scores nothing. */
  lemma NextQuestionSkipsUnanswered(s: QuizState)
    requires Valid(s) && !s.answered && s.currentIndex + 1 < |s.questions|
    ensures NextQuestion(s).currentIndex == s.currentIndex + 1
    ensures NextQuestion(s).score == s.score <= s.currentIndex
  {
  }

  /** The score never exceeds the number of questions. */
  lemma ScoreBound(s: QuizState)
    requires Valid(s)
    ensures s.score <= s.currentIndex + (if s.answered then 1 else 0) <= |s.questions|
    ensures s.score <= |s.questions|
  {
  }

  /** The actions the slice accepts. */
  datatype Action =
    | Load(topic: string, level: int, questions: seq<Question>)  // setQuizData
    | Select(answer: string)                                      // selectAnswer
    | Next                                                        // nextQuestion
    | Retry                                                       // retryLevel
    | NextLevel(level: int, questions: seq<Question>)             // setNextLevel

  /** The slice reducer: dispatch one action to its case reducer. */
  function Reduce(s: QuizState, a: Action): (r: Result<QuizState, ReducerError>)
    ensures r.Err? ==> a.Select?
    ensures Valid(s) && r.Ok? ==> Valid(r.value)
  {
    match a
    case Load(t, l, qs) => Ok(SetQuizData(s, t, l, qs))
    case Select(answer) => SelectAnswer(s, answer)
    case Next => Ok(NextQuestion(s))
    case Retry => Ok(RetryLevel(s))
    case NextLevel(l, qs) => Ok(SetNextLevel(s, l, qs))
  }

  /**
    The store after dispatching `actions` in order. A reducer that throws
    leaves the state as it was: the draft is discarded and the next action
    is applied to the old state.
   */
  function RunStore(s: QuizState, actions: seq<Action>): (r: QuizState)
    ensures Valid(s) ==> Valid(r)
    ensures Valid(s) ==> r.score <= |r.questions|
    decreases |actions|
  {
    if actions == [] then s
    else
      var next := match Reduce(s, actions[0]) { case Ok(t) => t case Err(_) => s };
      RunStore(next, actions[1..])
  }

  /** How many `selectAnswer` actions a sequence dispatches. */
  function SelectCount(actions: seq<Action>): nat
    decreases |actions|
  {
    if actions == [] then 0
    else (if actions[0].Select? then 1 else 0) + SelectCount(actions[1..])
  }

  /**
    A run never scores more than the answers given in it: only `selectAnswer`
    adds a point, at most one each, and reloads only lower the score.
   */
  lemma {:induction false} RunScoreAtMostAnswers(s: QuizState, actions: seq<Action>, k: nat)
    requires s.score <= k
    ensures RunStore(s, actions).score <= k + SelectCount(actions)
    decreases |actions|
  {
    if actions != [] {
      var next := match Reduce(s, actions[0]) { case Ok(t) => t case Err(_) => s };
      assert next.score <= s.score + (if actions[0].Select? then 1 else 0);
      RunScoreAtMostAnswers(next, actions[1..], k + (if actions[0].Select? then 1 else 0));
    }
  }

  /** Every state the store reaches from its initial state is valid. */
  lemma {:induction false} ReachableStatesValid(actions: seq<Action>)
    ensures Valid(RunStore(InitialState(), actions))
    ensures RunStore(InitialState(), actions).score <= |RunStore(InitialState(), actions).questions|
  {
  }

  /** Answer each pick in turn and move on after each: one playthrough. */
  function Play(s: QuizState, picks: seq<string>): Result<QuizState, ReducerError>
    decreases |picks|
  {
    if picks == [] then Ok(s)
    else
      match SelectAnswer(s, picks[0])
      case Err(e) => Err(e)
      case Ok(s1) => Play(NextQuestion(s1), picks[1..])
  }

  /** One turn of a playthrough: answer the current question, then move on. */
  lemma PlayStep(s: QuizState, picks: seq<string>)
    requires Valid(s) && !s.answered && !s.finished
    requires s.currentIndex < |s.questions| && picks != []
    ensures var s2 := NextQuestion(SelectAnswer(s, picks[0]).value);
      && Play(s, picks) == Play(s2, picks[1..])
      && s2.questions == s.questions
      && s2.score == s.score + (if picks[0] == s.questions[s.currentIndex].answer then 1 else 0)
      && (s.currentIndex + 1 < |s.questions| ==>
            Valid(s2) && !s2.answered && !s2.finished && s2.currentIndex == s.currentIndex + 1)
      && (s.currentIndex + 1 >= |s.questions| ==> s2.finished)
  {
  }

  /** The reference score of the remaining questions, split off its first pick. */
  lemma CountMatchesStep(qs: seq<Question>, start: nat, picks: seq<string>)
    requires start < |qs| && picks != [] && start + |picks| <= |qs|
    ensures CountMatches(qs[start..], picks)
      == (if picks[0] == qs[start].answer then 1 else 0) + CountMatches(qs[start + 1..], picks[1..])
  {
  }

  /**
    Answering from an unanswered question onwards scores exactly the picks
    that match their questions' answers; the session finishes exactly when
    the last question has been answered.
   */
  lemma {:induction false} PlayScoresMatches(s: QuizState, picks: seq<string>)
    requires Valid(s) && !s.answered && !s.finished
    requires s.currentIndex < |s.questions|
    requires s.currentIndex + |picks| <= |s.questions|
    ensures Play(s, picks).Ok?
    ensures var r := Play(s, picks).value;
      && r.score == s.score + CountMatches(s.questions[s.currentIndex..], picks)
      && r.questions == s.questions
      && (r.finished <==> s.currentIndex + |picks| == |s.questions|)
      && (!r.finished ==> r.currentIndex == s.currentIndex + |picks| && !r.answered)
    decreases |picks|
  {
    if picks != [] {
      var s2 := NextQuestion(SelectAnswer(s, picks[0]).value);
      PlayStep(s, picks);
      CountMatchesStep(s.questions, s.currentIndex, picks);
      if s.currentIndex + 1 < |s.questions| {
        PlayScoresMatches(s2, picks[1..]);
      } else {
        assert picks[1..] == [];
      }
    }
  }

  /** Playing a freshly loaded level to the end scores exactly the correct picks. */
  lemma PlayWholeLevel(s: QuizState, topic: string, level: int, questions: seq<Question>, picks: seq<string>)
    requires |questions| > 0 && |picks| == |questions|
    ensures Play(SetQuizData(s, topic, level, questions), picks).Ok?
    ensures Play(SetQuizData(s, topic, level, questions), picks).value.finished
    ensures Play(SetQuizData(s, topic, level, questions), picks).value.score == CountMatches(questions, picks)
  {
    var s0 := SetQuizData(s, topic, level, questions);
    PlayScoresMatches(s0, picks);
    assert questions[0..] == questions;
  }

  /** A whole level scores full marks exactly when every pick is the right answer, and zero exactly when none is. */
  lemma PerfectScoreIff(s: QuizState, topic: string, level: int, questions: seq<Question>, picks: seq<string>)
    requires |questions| > 0 && |picks| == |questions|
    ensures var r := Play(SetQuizData(s, topic, level, questions), picks);
      && r.Ok?
      && (r.value.score == |questions| <==> forall i :: 0 <= i < |picks| ==> picks[i] == questions[i].answer)
      && (r.value.score == 0 <==> forall i :: 0 <= i < |picks| ==> picks[i] != questions[i].answer)
  {
    PlayWholeLevel(s, topic, level, questions, picks);
    CountMatchesExtremes(questions, picks);
  }
}
