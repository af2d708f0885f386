/**
  The simple quiz player: it loads the questions of one topic, shows them one
  at a time through a question card, and counts correct drops.
 */
module QuizPlayer {
  import opened QuizData
  import QuestionCard

  /** The parsed dataset: question list per topic id. */
  type Dataset = map<string, seq<Question>>

  /** The player's component state. */
  datatype Player = Player(questions: seq<Question>, index: nat, score: nat)

  /** The state before the dataset has arrived. */
  function Start(): (p: Player)
    ensures p.questions == [] && p.index == 0 && p.score == 0
    ensures Inv(p)
  {
    Player([], 0, 0)
  }

  /** The player invariant: never past the end, never more points than answers. */
  predicate Inv(p: Player) {
    p.score <= p.index <= |p.questions|
  }

  /**
    The assignment made when the dataset arrives: the topic's list (empty when
    the topic is absent), back to the first question with no points.
   */
  function Load(p: Player, data: Dataset, topic: string): (r: Player)
    ensures topic in data ==> r.questions == data[topic]
    ensures topic !in data ==> r.questions == []
    ensures r.index == 0 && r.score == 0
    ensures Inv(r)
  {
    Player(if topic in data then data[topic] else [], 0, 0)
  }

  /** `handleAnswer`: always move on by one; a point only for a correct answer. */
  function HandleAnswer(p: Player, correct: bool): (r: Player)
    ensures r.questions == p.questions
    ensures r.index == p.index + 1
    ensures r.score == p.score + 1 <==> correct
    ensures r.score == p.score <==> !correct
    ensures p.score <= p.index ==> r.score <= r.index
  {
    p.(index := p.index + 1, score := if correct then p.score + 1 else p.score)
  }

  /** What the player shows. */
  datatype View =
    | NoQuestions
    | Finished(score: nat, total: nat)
    | Active(question: Question, position: nat, total: nat)

  /**
    The view: nothing to play with an empty list, the result once the index
    has run past the last question, the current question otherwise.
   */
  function ViewOf(p: Player): (v: View)
    ensures |p.questions| == 0 ==> v == NoQuestions
    ensures |p.questions| > 0 ==> (v.Finished? <==> p.index >= |p.questions|)
    ensures v.Finished? ==> v == Finished(p.score, |p.questions|)
    ensures v.Active? <==> 0 < |p.questions| && p.index < |p.questions|
    ensures v.Active? ==>
      v.question == p.questions[p.index] && v.position == p.index + 1 && v.total == |p.questions|
  {
    if |p.questions| == 0 then NoQuestions
    else if p.index >= |p.questions| then Finished(p.score, |p.questions|)
    else Active(p.questions[p.index], p.index + 1, |p.questions|)
  }

  /**
    A drop of `text` on the card being shown. The player does not pass an
    `answered` flag to the card, so the card treats it as false and reports
    every drop; no card is shown outside the active view.
   */
  function Drop(p: Player, text: string): (r: Player)
    ensures !ViewOf(p).Active? ==> r == p
    ensures ViewOf(p).Active? ==>
      r.index == p.index + 1
      && (r.score == p.score + 1 <==> text == p.questions[p.index].answer)
      && (r.score == p.score <==> text != p.questions[p.index].answer)
    ensures r.questions == p.questions
    ensures Inv(p) ==> Inv(r)
  {
    match ViewOf(p)
    case Active(q, _, _) =>
      (match QuestionCard.HandleDrop(false, q, text)
       case Some((correct, _)) => HandleAnswer(p, correct)
       case None => p)
    case _ => p
  }

  /** The events the player reacts to. */
  datatype Event =
    | Loaded(data: Dataset)   // the dataset fetch for the topic resolved
    | Dropped(text: string)   // an option was dropped on the card

  /** The player after handling `events` in order for a fixed `topic`. */
  function Run(p: Player, topic: string, events: seq<Event>): (r: Player)
    ensures Inv(p) ==> Inv(r)
    ensures Inv(p) ==> r.score <= |r.questions|
    decreases |events|
  {
    if events == [] then p
    else
      var next := match events[0] {
        case Loaded(data) => Load(p, data, topic)
        case Dropped(text) => Drop(p, text)
      };
      Run(next, topic, events[1..])
  }

  /**
    From a question onwards, dropping `texts` one per question advances one
    question per drop and scores exactly the drops that match their answers.
   */
  lemma {:induction false} DropsScoreMatches(p: Player, texts: seq<string>)
    requires p.index + |texts| <= |p.questions|
    ensures var r := DropAll(p, texts);
      && r.questions == p.questions
      && r.index == p.index + |texts|
      && r.score == p.score + CountMatches(p.questions[p.index..], texts)
    decreases |texts|
  {
    if texts != [] {
      var qs := p.questions[p.index..];
      var p1 := Drop(p, texts[0]);
      assert qs[1..] == p1.questions[p1.index..];
      assert CountMatches(qs, texts)
        == (if texts[0] == qs[0].answer then 1 else 0) + CountMatches(qs[1..], texts[1..]);
      DropsScoreMatches(p1, texts[1..]);
    }
  }

  /** Drop each text in turn. */
  function DropAll(p: Player, texts: seq<string>): Player
    decreases |texts|
  {
    if texts == [] then p else DropAll(Drop(p, texts[0]), texts[1..])
  }

  /**
    Loading a non-empty topic and dropping one text per question ends on the
    result view whose score is the number of exactly matching drops.
   */
  lemma PlayWholeTopic(p: Player, data: Dataset, topic: string, texts: seq<string>)
    requires topic in data && |data[topic]| > 0 && |texts| == |data[topic]|
    ensures ViewOf(DropAll(Load(p, data, topic), texts)) == Finished(CountMatches(data[topic], texts), |texts|)
  {
    var p0 := Load(p, data, topic);
    DropsScoreMatches(p0, texts);
    assert p0.questions[0..] == p0.questions;
  }

  /** Before and after loading an empty topic the player shows "no questions", whatever the index. */
  lemma EmptyShowsNoQuestions(p: Player)
    requires |p.questions| == 0
    ensures ViewOf(p) == NoQuestions
    ensures ViewOf(Start()) == NoQuestions
  {
  }
}
