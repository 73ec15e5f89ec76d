/**
 * The profile screen's two computations: the longest streak shown next to
 * the current one, and the validation of a new streak goal typed as text.
 */
module Profile {
  import opened Common
  import opened Text
  import opened Entities

  /** The largest of the current streak and the lengths of the finished streaks. */
  function LongestStreak(streak: int, history: seq<StreakHistoryEntry>): (r: int)
    ensures history == [] ==> r == streak
    ensures r >= streak
    ensures forall i :: 0 <= i < |history| ==> r >= history[i].length
    ensures r == streak || exists i :: 0 <= i < |history| && r == history[i].length
  {
    if history == [] then streak
    else
      var rest := LongestStreak(streak, history[1..]);
      assert forall i :: 1 <= i < |history| ==> history[i] == history[1..][i - 1];
      if history[0].length > rest then history[0].length else rest
  }

  /**
   * `handleSetGoal`: the goal after submitting `input`. The text is read with
   * `parseInt(input, 10)`; a number above zero becomes the goal, anything else
   * (no digits, zero, negative) leaves the goal as it was.
   */
  function SetGoal(goal: int, input: string): (r: int)
    ensures ParseInt(input).Some? && ParseInt(input).value > 0 ==> r == ParseInt(input).value
    ensures !(ParseInt(input).Some? && ParseInt(input).value > 0) ==> r == goal
  {
    var parsed := ParseInt(input);
    if parsed.Some? && parsed.value > 0 then parsed.value else goal
  }

  /** The goal field starts as the goal's text: submitting it unchanged keeps the goal. */
  lemma SetGoalOfShownGoal(goal: int)
    ensures SetGoal(goal, IntToString(goal)) == goal
  {
    ParseIntOfIntToString(goal);
  }

  /** Typing any positive number sets exactly that goal. */
  lemma SetGoalOfPositive(goal: int, n: int)
    requires n > 0
    ensures SetGoal(goal, IntToString(n)) == n
  {
    ParseIntOfIntToString(n);
  }

  /** Leading blanks and trailing text after the digits are ignored, as `parseInt` does. */
  lemma SetGoalIgnoresSurroundings(goal: int, n: int, tail: string)
    requires n > 0
    requires tail == [] || !IsDigit(tail[0])
    ensures SetGoal(goal, " " + IntToString(n) + tail) == n
  {
    var digits := NatToString(n);
    assert IntToString(n) == digits;
    assert " " + IntToString(n) + tail == " " + (digits + tail);
    assert (digits + tail)[0] == digits[0];
    LeadingSpaceIgnored(digits + tail);
    ParseIntOfDigitsThen(digits, tail);
    NatToStringValue(n);
  }

  /** One space before text that starts with a non-space does not change what `parseInt` reads. */
  lemma LeadingSpaceIgnored(s: string)
    requires s != [] && !IsSpace(s[0])
    ensures ParseInt(" " + s) == ParseInt(s)
  {
    assert (" " + s)[1..] == s;
    assert TrimStart(" " + s) == TrimStart(s) == s;
  }

  /** A numeral followed by a non-digit is read as the numeral's value. */
  lemma ParseIntOfDigitsThen(digits: string, tail: string)
    requires |digits| >= 1 && forall i :: 0 <= i < |digits| ==> IsDigit(digits[i])
    requires tail == [] || !IsDigit(tail[0])
    ensures ParseInt(digits + tail) == Some(DigitsValue(digits))
  {
    var s := digits + tail;
    assert s[0] == digits[0];
    DigitPrefixOfDigitsThen(digits, tail);
    ParseIntOfDigitStart(s);
  }
}
