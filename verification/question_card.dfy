/**
  One question card: the drop handler that judges an answer, the drop zone
  text and whether the option tiles can be dragged.
 */
module QuestionCard {
  import opened QuizData

  /** Text of the empty drop zone. */
  const Placeholder: string := "Drop your answer here"

  /**
    `handleDrop`: the `onAnswer(correct, text)` call made when `text` is dropped,
    or None when the card is already answered and the drop is ignored.
   */
  function HandleDrop(answered: bool, q: Question, text: string): (call: Option<(bool, string)>)
    ensures call.None? <==> answered
    ensures call.Some? ==> (call.value.0 <==> text == q.answer)
    ensures call.Some? ==> call.value.1 == text
  {
    if answered then None
    else
      var correct := text == q.answer;
      Some((correct, text))
  }

  /** The drop zone shows the correct answer once answered, the placeholder before. */
  function DropZoneText(answered: bool, q: Question): (text: string)
    ensures answered ==> text == q.answer
    ensures !answered ==> text == Placeholder
  {
    if answered then q.answer else Placeholder
  }

  /** One option tile and whether it can be dragged. */
  datatype Tile = Tile(text: string, draggable: bool)

  /** The option tiles, one per option in order, draggable only before an answer. */
  function Tiles(answered: bool, q: Question): (tiles: seq<Tile>)
    ensures |tiles| == |q.options|
    ensures forall i :: 0 <= i < |tiles| ==> tiles[i].text == q.options[i]
    ensures forall i :: 0 <= i < |tiles| ==> (tiles[i].draggable <==> !answered)
  {
    seq(|q.options|, i requires 0 <= i < |q.options| => Tile(q.options[i], !answered))
  }

  /**
    An answered card is inert: drops are ignored, nothing can be dragged, and
    the zone shows the question's answer whatever was dropped.
   */
  lemma AnsweredCardIsInert(q: Question, text: string)
    ensures HandleDrop(true, q, text).None?
    ensures forall t :: t in Tiles(true, q) ==> !t.draggable
    ensures DropZoneText(true, q) == q.answer
  {
  }

  /**
    An unanswered card is live: every drop is reported and every tile can
    be dragged. With the lemma above, drops are accepted exactly when tiles
    can be dragged.
   */
  lemma UnansweredCardIsLive(q: Question, text: string)
    ensures HandleDrop(false, q, text).Some?
    ensures forall t :: t in Tiles(false, q) ==> t.draggable
    ensures DropZoneText(false, q) == Placeholder
  {
  }

  /**
    Correctness is exact string equality: dropping the answer itself is
    correct, and any other string, even one differing only in letter case, is not.
   */
  lemma ExactMatchOnly(q: Question, text: string)
    ensures HandleDrop(false, q, q.answer) == Some((true, q.answer))
    ensures text != q.answer ==> HandleDrop(false, q, text) == Some((false, text))
    ensures HandleDrop(false, Question("", ["Paper", "paper"], "Paper", None), "paper") == Some((false, "paper"))
  {
  }
}
