/**
  Shared vocabulary of the quiz engine: optional values, results of reducers
  that can throw, and the question records read from the dataset.
 */
module QuizData {

  /** A value that may be absent (`null` / `undefined` in the program). */
  datatype Option<+T> = None | Some(value: T)

  /** The outcome of a step that either produces a value or throws. */
  datatype Result<+T, +E> = Ok(value: T) | Err(error: E)

  /**
    One dataset question. Options are the answer labels offered to the player;
    `answer` is the label that counts as correct. The dataset is externally
    authored, so nothing here forces `answer` to be one of the options.
   */
  datatype Question = Question(
    question: string,
    options: seq<string>,
    answer: string,
    explanation: Option<string>)

  /**
    Number of positions `i` where the i-th pick is exactly (string equality)
    the answer of the i-th question: the reference score of a playthrough.
   */
  function CountMatches(qs: seq<Question>, picks: seq<string>): (n: nat)
    requires |picks| <= |qs|
    ensures n <= |picks|
    decreases |picks|
  {
    if picks == [] then 0
    else (if picks[0] == qs[0].answer then 1 else 0) + CountMatches(qs[1..], picks[1..])
  }

  /** Every pick matches exactly when the count is full, none exactly when it is zero. */
  lemma {:induction false} CountMatchesExtremes(qs: seq<Question>, picks: seq<string>)
    requires |picks| <= |qs|
    ensures CountMatches(qs, picks) == |picks| <==> forall i :: 0 <= i < |picks| ==> picks[i] == qs[i].answer
    ensures CountMatches(qs, picks) == 0 <==> forall i :: 0 <= i < |picks| ==> picks[i] != qs[i].answer
    decreases |picks|
  {
    if picks != [] {
      CountMatchesExtremes(qs[1..], picks[1..]);
      assert forall i :: 1 <= i < |picks| ==> picks[1..][i - 1] == picks[i] && qs[1..][i - 1] == qs[i];
    }
  }
}
