/**
  The home screen: the fixed list of topics, which of them are unlocked by the
  recorded progress, and the hand-off from a chosen topic to its level picker.
 */
module Home {
  import opened QuizData
  import LevelSelector

  /** Highest completed level per topic id; a topic without an entry has none. */
  type Progress = map<string, int>

  /** Topic ids in display order; each topic is gated by the one before it. */
  const Topics: seq<string> :=
    ["waste_management", "energy_conservation", "tree_planting", "water_conservation"]

  /** The `progress` prop falls back to the empty record when it is not given. */
  function ProgressOrDefault(prop: Option<Progress>): (p: Progress)
    ensures prop.None? ==> p == map[]
    ensures prop.Some? ==> p == prop.value
  {
    match prop
    case None => map[]
    case Some(m) => m
  }

  /** `progress[t] || 0`: the recorded level of a topic, 0 when it has no entry. */
  function ProgressOf(progress: Progress, t: string): (level: int)
    ensures t !in progress ==> level == 0
    ensures t in progress ==> level == progress[t]
  {
    if t in progress && progress[t] != 0 then progress[t] else 0
  }

  /**
    The topic gate: the first topic is always open, every later one opens
    once the previous topic's recorded level is exactly 5. The home screen
    writes the 5 itself; it agrees with `LevelSelector.MaxLevels`.
   */
  predicate TopicUnlocked(progress: Progress, idx: int)
    requires 0 <= idx < |Topics|
  {
    idx == 0 || ProgressOf(progress, Topics[idx - 1]) == 5
  }

  /** One rendered topic card. */
  datatype TopicCard = TopicCard(id: string, unlocked: bool)

  /** The topic grid: one card per topic, in order. */
  function Grid(progress: Progress): (cards: seq<TopicCard>)
    ensures |cards| == |Topics|
    ensures forall i :: 0 <= i < |cards| ==> cards[i].id == Topics[i]
    ensures |cards| > 0 && cards[0].unlocked
    ensures forall i :: 1 <= i < |cards| ==>
      (cards[i].unlocked <==> Topics[i - 1] in progress && progress[Topics[i - 1]] == 5)
  {
    seq(|Topics|, i requires 0 <= i < |Topics| => TopicCard(Topics[i], TopicUnlocked(progress, i)))
  }

  /** What the home screen shows. */
  datatype View =
    | TopicGrid(cards: seq<TopicCard>)
    | LevelPicker(topic: string, lastCompletedLevel: int)

  /**
    The view for the selected topic: the level picker of that topic, fed its
    recorded level, once a (non-empty) topic id is selected; the grid otherwise.
   */
  function ViewOf(selected: Option<string>, progress: Progress): (v: View)
    ensures v.LevelPicker? <==> selected.Some? && selected.value != ""
    ensures v.LevelPicker? ==> v.topic == selected.value && v.lastCompletedLevel == ProgressOf(progress, v.topic)
    ensures v.TopicGrid? ==> v.cards == Grid(progress)
  {
    match selected
    case Some(t) =>
      if t != "" then LevelPicker(t, ProgressOf(progress, t)) else TopicGrid(Grid(progress))
    case None => TopicGrid(Grid(progress))
  }

  /** A click on topic card `idx`: it selects the topic only when it is unlocked. */
  function ClickTopic(selected: Option<string>, progress: Progress, idx: int): (r: Option<string>)
    requires 0 <= idx < |Topics|
    ensures !TopicUnlocked(progress, idx) ==> r == selected
    ensures TopicUnlocked(progress, idx) ==> r == Some(Topics[idx])
  {
    if TopicUnlocked(progress, idx) then Some(Topics[idx]) else selected
  }

  /** The "Back to Topics" button clears the selection. */
  function Back(): (r: Option<string>)
    ensures r.None?
  {
    None
  }

  /** Going back always shows the topic grid, whatever was selected. */
  lemma BackShowsGrid(progress: Progress)
    ensures ViewOf(Back(), progress) == TopicGrid(Grid(progress))
    ensures ViewOf(Back(), progress) != ViewOf(Some(Topics[0]), progress)
  {
  }

  /**
    A click on a level inside the picker of `topic`: `onStartQuiz(topic, level)`
    is called, and its arguments returned, only for an unlocked level.
   */
  function PickLevel(progress: Progress, topic: string, level: int): (call: Option<(string, int)>)
    ensures call.Some? <==> LevelSelector.Unlocked(level, ProgressOf(progress, topic))
    ensures call.Some? ==> call.value == (topic, level)
  {
    LevelSelector.ClickLevel(topic, level, ProgressOf(progress, topic))
  }

  /** The topic ids are distinct and non-empty. */
  lemma TopicsDistinct()
    ensures forall i, j :: 0 <= i < j < |Topics| ==> Topics[i] != Topics[j]
    ensures forall i :: 0 <= i < |Topics| ==> Topics[i] != ""
  {
  }

  /** The first topic is open whatever the progress. */
  lemma FirstTopicAlwaysUnlocked(progress: Progress)
    ensures TopicUnlocked(progress, 0)
    ensures ClickTopic(None, progress, 0) == Some(Topics[0])
  {
  }

  /**
    A later topic is open exactly when its predecessor's entry is present and
    equal to 5; a missing entry, or any other value (above 5 included), locks it.
   */
  lemma TopicUnlockedIff(progress: Progress, idx: int)
    requires 1 <= idx < |Topics|
    ensures TopicUnlocked(progress, idx) <==> Topics[idx - 1] in progress && progress[Topics[idx - 1]] == 5
    ensures Topics[idx - 1] in progress && progress[Topics[idx - 1]] > 5 ==> !TopicUnlocked(progress, idx)
    ensures Topics[idx - 1] !in progress ==> !TopicUnlocked(progress, idx)
  {
  }

  /** Only the preceding topic's entry matters: changing any other entry changes nothing. */
  lemma OnlyPredecessorMatters(progress: Progress, idx: int, t: string, v: int)
    requires 0 <= idx < |Topics|
    requires idx == 0 || t != Topics[idx - 1]
    ensures TopicUnlocked(progress[t := v], idx) == TopicUnlocked(progress, idx)
  {
  }

  /** Selecting a locked topic leaves the selection as it was. */
  lemma LockedTopicIgnored(selected: Option<string>, progress: Progress, idx: int)
    requires 0 <= idx < |Topics| && !TopicUnlocked(progress, idx)
    ensures ViewOf(ClickTopic(selected, progress, idx), progress) == ViewOf(selected, progress)
  {
  }

  /**
    Selecting an unlocked topic opens its level picker, fed the topic's
    recorded level or 0 when it has none.
   */
  lemma UnlockedTopicOpensPicker(selected: Option<string>, progress: Progress, idx: int)
    requires 0 <= idx < |Topics| && TopicUnlocked(progress, idx)
    ensures ViewOf(ClickTopic(selected, progress, idx), progress)
      == LevelPicker(Topics[idx], if Topics[idx] in progress then progress[Topics[idx]] else 0)
  {
  }

  /**
    Topic gating looks at one predecessor only, so it is not transitive: a
    record can open the third topic while the second stays locked.
   */
  lemma GateIsNotTransitive()
    ensures var p := map["energy_conservation" := 5];
      !TopicUnlocked(p, 1) && TopicUnlocked(p, 2)
  {
  }

  /** With no progress at all only the first topic, and in it only level 1, can be opened. */
  lemma FreshPlayerStartsAtFirstTopicFirstLevel(idx: int, level: int)
    requires 0 <= idx < |Topics| && level in LevelSelector.Levels()
    ensures TopicUnlocked(ProgressOrDefault(None), idx) <==> idx == 0
    ensures PickLevel(ProgressOrDefault(None), Topics[0], level).Some? <==> level == 1
  {
  }
}
