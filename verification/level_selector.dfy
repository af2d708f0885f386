/**
  The level picker of one topic: which of the five levels are offered, which
  are unlocked, which carry the "completed" badge, and what a click does.
 */
module LevelSelector {
  import opened QuizData

  /** Every topic has exactly five levels. */
  const MaxLevels: int := 5

  /** The levels offered, in display order: 1 .. MaxLevels. */
  function Levels(): (r: seq<int>)
    ensures |r| == MaxLevels
    ensures forall l :: l in r <==> 1 <= l <= MaxLevels
    ensures forall i, j :: 0 <= i < j < |r| ==> r[i] < r[j]
  {
    var r := seq(MaxLevels, i => i + 1);
    assert forall l :: 1 <= l <= MaxLevels ==> l in r by {
      forall l | 1 <= l <= MaxLevels ensures l in r {
        assert r[l - 1] == l;
      }
    }
    r
  }

  /** The lock rule: level 1, or any level up to one past the last completed one. */
  predicate Unlocked(level: int, lastCompletedLevel: int) {
    level == 1 || level <= lastCompletedLevel + 1
  }

  /** The `lastCompletedLevel` prop falls back to 0 when it is not given. */
  function LastCompletedOrDefault(prop: Option<int>): (last: int)
    ensures prop.None? ==> last == 0
    ensures prop.Some? ==> last == prop.value
  {
    match prop
    case None => 0
    case Some(v) => v
  }

  /**
    The highest unlocked level: the unlocked levels are exactly 1 .. Frontier.
   */
  function Frontier(lastCompletedLevel: int): (f: int)
    ensures 1 <= f <= MaxLevels
    ensures forall level :: 1 <= level <= MaxLevels ==> (Unlocked(level, lastCompletedLevel) <==> level <= f)
    ensures lastCompletedLevel >= 0 ==> f == if lastCompletedLevel + 1 < MaxLevels then lastCompletedLevel + 1 else MaxLevels
  {
    if lastCompletedLevel + 1 < 1 then 1
    else if lastCompletedLevel + 1 > MaxLevels then MaxLevels
    else lastCompletedLevel + 1
  }

  /** One rendered level button: locked buttons show a padlock and no badge. */
  datatype LevelButton = LevelButton(level: int, unlocked: bool, badge: bool)

  /** The buttons the picker renders for a given `lastCompletedLevel`. */
  function Buttons(lastCompletedLevel: int): (r: seq<LevelButton>)
    ensures |r| == MaxLevels
    ensures forall i :: 0 <= i < |r| ==> r[i].level == Levels()[i]
    // unlocked buttons form the prefix 1 .. Frontier
    ensures forall i :: 0 <= i < |r| ==> (r[i].unlocked <==> r[i].level <= Frontier(lastCompletedLevel))
    // the badge marks exactly the completed levels, and only unlocked ones
    ensures forall i :: 0 <= i < |r| ==> (r[i].badge <==> r[i].level <= lastCompletedLevel)
    ensures forall i :: 0 <= i < |r| ==> r[i].badge ==> r[i].unlocked
  {
    var levels := Levels();
    seq(|levels|, i requires 0 <= i < |levels| =>
      var unlocked := Unlocked(levels[i], lastCompletedLevel);
      LevelButton(levels[i], unlocked, unlocked && levels[i] <= lastCompletedLevel))
  }

  /**
    A click on a level button: `onSelectLevel(topic, level)` is called, and
    its arguments returned, only when the level is unlocked.
   */
  function ClickLevel(topic: string, level: int, lastCompletedLevel: int): (call: Option<(string, int)>)
    ensures call.Some? <==> Unlocked(level, lastCompletedLevel)
    ensures call.Some? ==> call.value == (topic, level)
  {
    if Unlocked(level, lastCompletedLevel) then Some((topic, level)) else None
  }

  /** Level 1 is unlocked whatever the recorded progress, even a negative one. */
  lemma FirstLevelAlwaysUnlocked(lastCompletedLevel: int)
    ensures Unlocked(1, lastCompletedLevel)
    ensures ClickLevel("", 1, lastCompletedLevel).Some?
  {
  }

  /**
    Beyond level 1 a level is unlocked exactly when it is at most one past the
    last completed level (for level 1 this also holds when progress is not negative).
   */
  lemma UnlockedIff(level: int, lastCompletedLevel: int)
    requires level >= 2 || (level >= 1 && lastCompletedLevel >= 0)
    ensures Unlocked(level, lastCompletedLevel) <==> level <= lastCompletedLevel + 1
  {
  }

  /** More progress never locks a level. */
  lemma UnlockMonotone(level: int, last: int, last': int)
    requires last <= last'
    ensures Unlocked(level, last) ==> Unlocked(level, last')
    ensures Frontier(last) <= Frontier(last')
  {
  }

  /** A completed level is always unlocked. */
  lemma CompletedImpliesUnlocked(level: int, lastCompletedLevel: int)
    requires level <= lastCompletedLevel
    ensures Unlocked(level, lastCompletedLevel)
  {
  }

  /** Without a `lastCompletedLevel` prop only level 1 can be opened. */
  lemma DefaultUnlocksOnlyFirst(level: int)
    requires level in Levels()
    ensures Unlocked(level, LastCompletedOrDefault(None)) <==> level == 1
    ensures Frontier(LastCompletedOrDefault(None)) == 1
  {
  }
}
