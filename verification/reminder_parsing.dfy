/**
 * The reminder branch of the command parser: the groups of the reminder
 * pattern converted to a task and a delay in seconds.
 */
module ReminderParsing {
  import opened Wrappers
  import opened Text
  import opened Patterns

  /** A parsed reminder: what to say and after how many seconds. */
  datatype ReminderRequest = ReminderRequest(task: string, delay: nat)

  /** The number of seconds in one unit, by the unit's name. */
  function UnitSeconds(unit: string): nat {
    if unit in {"minute", "minutes"} then 60
    else if unit in {"hour", "hours"} then 3600
    else 1
  }

  /**
   * The parser's conversion: the delay starts as the number and is multiplied
   * by 60 when the unit mentions "minute", by 3600 when it mentions "hour".
   */
  function Delay(value: nat, unit: string): nat {
    if Contains(unit, "minute") then value * 60
    else if Contains(unit, "hour") then value * 3600
    else value
  }

  /** For each of the six unit words the substring tests give the unit's seconds. */
  lemma DelayCorrect(value: nat, unit: string)
    requires unit in {"second", "seconds", "minute", "minutes", "hour", "hours"}
    ensures Delay(value, unit) == value * UnitSeconds(unit)
  {
    if unit in {"minute", "minutes"} {
      MinuteUnit(unit);
    } else if unit in {"hour", "hours"} {
      HourUnit(unit);
    } else {
      SecondUnit(unit);
    }
  }

  /** "minute" occurs in both minute units. */
  lemma MinuteUnit(unit: string)
    requires unit in {"minute", "minutes"}
    ensures Contains(unit, "minute")
  {
    OccurrenceContained(unit, "minute", 0);
  }

  /** The hour units hold "hour" and no "minute". */
  lemma HourUnit(unit: string)
    requires unit in {"hour", "hours"}
    ensures !Contains(unit, "minute") && Contains(unit, "hour")
  {
    MissingCharNotContained(unit, "minute", 0);
    OccurrenceContained(unit, "hour", 0);
  }

  /** The second units hold neither "minute" nor "hour". */
  lemma SecondUnit(unit: string)
    requires unit in {"second", "seconds"}
    ensures !Contains(unit, "minute") && !Contains(unit, "hour")
  {
    MissingCharNotContained(unit, "minute", 0);
    MissingCharNotContained(unit, "hour", 0);
  }

  /** The reminder branch of the parser: the groups of the match and the delay in seconds. */
  function ParseReminder(cmd: string): Option<ReminderRequest> {
    match MatchReminder(cmd)
    case None => None
    case Some(m) =>
      SearchGroupsWellFormed(cmd, 0);
      Some(ReminderRequest(m.task, Delay(DigitsValue(m.value), m.unit)))
  }

  /**
   * On a match, the task is the task group, never empty and without newline,
   * and the delay is the number times the unit's seconds; without a match, the
   * pattern matches nowhere in the command.
   */
  lemma ParseReminderSpec(cmd: string)
    ensures ParseReminder(cmd).None? <==> MatchReminder(cmd).None?
    ensures ParseReminder(cmd).None? ==> forall i: nat, l: nat :: !ReminderMatchAt(cmd, i, l)
    ensures ParseReminder(cmd).Some? ==>
              var m := MatchReminder(cmd).value;
              && WellFormedGroups(m)
              && ParseReminder(cmd).value.task == m.task
              && ParseReminder(cmd).value.delay == DigitsValue(m.value) * UnitSeconds(m.unit)
  {
    MatchReminderSpec(cmd);
    if MatchReminder(cmd).Some? {
      var m := MatchReminder(cmd).value;
      DelayCorrect(DigitsValue(m.value), m.unit);
    }
  }

  /** The parse fails exactly when the reminder pattern matches nowhere in the command. */
  lemma ParseReminderNoneIff(cmd: string)
    ensures ParseReminder(cmd).None? <==> forall i: nat, l: nat :: !ReminderMatchAt(cmd, i, l)
  {
    ParseReminderSpec(cmd);
    MatchReminderSpec(cmd);
    if ParseReminder(cmd).Some? {
      var m := MatchReminder(cmd).value;
      assert ReminderMatchAt(cmd, m.start, |m.task|);
    }
  }

  /** A command without any digit never yields a reminder, only the usage hint. */
  lemma NoDigitNoReminder(cmd: string)
    requires forall k :: 0 <= k < |cmd| ==> !IsDigit(cmd[k])
    ensures ParseReminder(cmd).None?
  {
    MatchReminderSpec(cmd);
  }

  /** "remind me to nothing" has no "in N unit" part, so no reminder is made. */
  lemma NothingIsUsage()
    ensures ParseReminder("remind me to nothing").None?
  {
    NoDigitNoReminder("remind me to nothing");
  }

  /** A reminder phrased as the usage hint asks. */
  const CallMom: string := "remind me to call mom in 5 minutes"

  /** The unit group of the example is "minutes", the plural tried first. */
  lemma CallMomUnit()
    ensures UnitAt(CallMom, 27) == Some("minutes")
  {
    assert CallMom[27] == 'm';
    assert !OccursAt(CallMom, "second" + "s", 27) by { assert ("second" + "s")[0] == 's'; }
    assert !OccursAt(CallMom, "second", 27) by { assert "second"[0] == 's'; }
    assert "minute" + "s" == "minutes";
    assert OccursAt(CallMom, "minutes", 27);
  }

  /** The example's digit run is the single digit "5". */
  lemma CallMomDigits()
    ensures DigitRun(CallMom, 25) == 1 && CallMom[25..26] == "5"
  {
    assert CallMom[25] == '5' && CallMom[26] == ' ';
    assert DigitRun(CallMom, 26) == 0;
  }

  /** After "call mom" the example reads " in 5 minutes". */
  lemma CallMomTail()
    ensures TailAt(CallMom, 21) == Some(("5", "minutes"))
  {
    assert OccursAt(CallMom, " in ", 21);
    CallMomDigits();
    assert OccursAt(CallMom, " ", 26);
    CallMomUnit();
  }

  /** No shorter task than "call mom" is followed by " in ". */
  lemma CallMomShortestTask()
    ensures forall l: nat :: l < 8 ==> !ReminderMatchAt(CallMom, 0, l)
  {
    forall l: nat | 1 <= l < 8
      ensures !ReminderMatchAt(CallMom, 0, l)
    {
      if l == 4 {
        assert CallMom[18] == 'm';
        assert CallMom[17..21][1] != " in "[1];
      } else {
        assert CallMom[13 + l] != ' ' by {
          assert l == 1 || l == 2 || l == 3 || l == 5 || l == 6 || l == 7;
        }
        assert CallMom[13 + l..17 + l][0] != " in "[0];
      }
    }
  }

  /** The example starts with the pattern's fixed prefix. */
  lemma CallMomPrefix()
    ensures OccursAt(CallMom, RemindPrefix, 0)
  {
    assert CallMom[..13] == RemindPrefix;
  }

  /** The example's task text holds no newline. */
  lemma CallMomTaskLine()
    ensures NoNewlineBetween(CallMom, 13, 21)
  {
    var task := CallMom[13..21];
    assert task == "call mom";
    forall k | 13 <= k < 21
      ensures CallMom[k] != '\n'
    {
      assert CallMom[k] == task[k - 13];
    }
  }

  /** The whole pattern matches the example at index 0 with a task of eight characters. */
  lemma CallMomMatches()
    ensures ReminderMatchAt(CallMom, 0, 8)
  {
    CallMomPrefix();
    CallMomTail();
    CallMomTaskLine();
  }

  /** The eight characters after the prefix are "call mom". */
  lemma CallMomTaskText()
    ensures CallMom[13..21] == "call mom"
  {
  }

  /** The search reports the groups "call mom", "5" and "minutes". */
  lemma CallMomGroups()
    ensures MatchReminder(CallMom) == Some(ReminderMatch(0, "call mom", "5", "minutes"))
  {
    MatchReminderSpec(CallMom);
    CallMomMatches();
    var r := MatchReminder(CallMom);
    assert r.Some?;
    var m := r.value;
    assert m.start == 0 && |m.task| <= 8;
    assert Describes(CallMom, m);
    assert ReminderMatchAt(CallMom, 0, |m.task|);
    CallMomShortestTask();
    assert |m.task| == 8;
    CallMomTail();
    assert (m.value, m.unit) == ("5", "minutes");
    assert m.task == CallMom[13..21];
    CallMomTaskText();
  }

  /** "remind me to call mom in 5 minutes" asks for "call mom" in 300 seconds. */
  lemma CallMomInFiveMinutes()
    ensures ParseReminder(CallMom) == Some(ReminderRequest("call mom", 300))
  {
    CallMomGroups();
    ParseReminderSpec(CallMom);
    assert DigitsValue("5") == 5;
  }
}
