/**
 * The command parser: a lower-cased utterance is classified by a fixed chain
 * of substring tests, the first test that succeeds deciding the intent.
 */
module Router {
  import opened Wrappers
  import opened Text
  import opened Patterns
  import opened ReminderParsing
  import opened Opening

  /** What the parser decided to do with one utterance. */
  datatype Intent =
    | NoIntent                          // empty utterance: nothing is said or done
    | Exit                              // say goodbye, stop the scheduler, end the listener thread
    | Time                              // say the current time
    | Date                              // say today's date
    | Weather(city: string)             // look up the weather of `city`
    | Reminder(task: string, delay: nat)  // set a reminder `delay` seconds from now
    | ReminderUsage                     // reminder phrase not understood: say how to phrase it
    | Email                             // start the e-mail dialogue
    | Device(command: string)           // publish `command` to the smart-home broker
    | Open(target: string)              // open a local application or a web site
    | Fallback(query: string)           // look `query` up in the encyclopedia

  /** Python's `any(x in cmd for x in keywords)`. */
  predicate AnyIn(cmd: string, keywords: seq<string>) {
    keywords != [] && (Contains(cmd, keywords[0]) || AnyIn(cmd, keywords[1..]))
  }

  /** `parse_command`: the chain of tests, in the order the parser makes them. */
  function Route(cmd: string, defaultCity: string): Intent {
    if cmd == [] then NoIntent
    else if AnyIn(cmd, ["exit", "quit", "stop"]) then Exit
    else if Contains(cmd, "time") then Time
    else if Contains(cmd, "date") || Contains(cmd, "day") then Date
    else if Contains(cmd, "weather") then Weather(WeatherCity(cmd, defaultCity))
    else if Contains(cmd, "remind me to") then
      match ParseReminder(cmd)
      case Some(req) => Reminder(req.task, req.delay)
      case None => ReminderUsage
    else if Contains(cmd, "email") then Email
    else if Contains(cmd, "turn on") || Contains(cmd, "turn off") then Device(cmd)
    else if Contains(cmd, "open") then Open(OpenTarget(cmd))
    else Fallback(cmd)
  }

  // ---------------------------------------------------------------------
  // The same chain as an ordered table of rules
  // ---------------------------------------------------------------------

  datatype Rule = ExitRule | TimeRule | DateRule | WeatherRule | ReminderRule | EmailRule | DeviceRule | OpenRule

  /** The rules in the order they are tried. */
  const Priority: seq<Rule> :=
    [ExitRule, TimeRule, DateRule, WeatherRule, ReminderRule, EmailRule, DeviceRule, OpenRule]

  /** The substrings that make a rule fire. */
  function Keywords(rule: Rule): seq<string> {
    match rule
    case ExitRule => ["exit", "quit", "stop"]
    case TimeRule => ["time"]
    case DateRule => ["date", "day"]
    case WeatherRule => ["weather"]
    case ReminderRule => ["remind me to"]
    case EmailRule => ["email"]
    case DeviceRule => ["turn on", "turn off"]
    case OpenRule => ["open"]
  }

  /** Some keyword of `rule` occurs in `cmd`. */
  predicate Fires(cmd: string, rule: Rule) {
    AnyIn(cmd, Keywords(rule))
  }

  /** The rule an intent comes from; none for the empty utterance and the fallback. */
  function RuleOf(intent: Intent): Option<Rule> {
    match intent
    case NoIntent => None
    case Exit => Some(ExitRule)
    case Time => Some(TimeRule)
    case Date => Some(DateRule)
    case Weather(_) => Some(WeatherRule)
    case Reminder(_, _) => Some(ReminderRule)
    case ReminderUsage => Some(ReminderRule)
    case Email => Some(EmailRule)
    case Device(_) => Some(DeviceRule)
    case Open(_) => Some(OpenRule)
    case Fallback(_) => None
  }

  /** Index in `Priority`, at or after `from`, of the first rule that fires. */
  function FirstFiring(cmd: string, from: nat): (r: Option<nat>)
    ensures r.Some? ==> from <= r.value < |Priority| && Fires(cmd, Priority[r.value])
    ensures r.Some? ==> forall j :: from <= j < r.value ==> !Fires(cmd, Priority[j])
    ensures r.None? ==> forall j :: from <= j < |Priority| ==> !Fires(cmd, Priority[j])
    decreases |Priority| - from
  {
    if from >= |Priority| then None
    else if Fires(cmd, Priority[from]) then Some(from)
    else FirstFiring(cmd, from + 1)
  }

  /** `any` over a list of keywords: some keyword of the list occurs. */
  lemma {:induction false} AnyInExists(cmd: string, ks: seq<string>)
    ensures AnyIn(cmd, ks) <==> exists k :: 0 <= k < |ks| && Contains(cmd, ks[k])
    decreases |ks|
  {
    if ks != [] {
      AnyInExists(cmd, ks[1..]);
      if exists k :: 0 <= k < |ks| && Contains(cmd, ks[k]) {
        var k :| 0 <= k < |ks| && Contains(cmd, ks[k]);
        if k > 0 {
          assert ks[1..][k - 1] == ks[k];
        }
      }
    }
  }

  /** Each test the parser writes is the rule's keyword test. */
  lemma KeywordTests(cmd: string)
    ensures Fires(cmd, ExitRule) == AnyIn(cmd, ["exit", "quit", "stop"])
    ensures AnyIn(cmd, ["exit", "quit", "stop"]) == (Contains(cmd, "exit") || Contains(cmd, "quit") || Contains(cmd, "stop"))
    ensures Fires(cmd, TimeRule) == Contains(cmd, "time")
    ensures Fires(cmd, DateRule) == (Contains(cmd, "date") || Contains(cmd, "day"))
    ensures Fires(cmd, WeatherRule) == Contains(cmd, "weather")
    ensures Fires(cmd, ReminderRule) == Contains(cmd, "remind me to")
    ensures Fires(cmd, EmailRule) == Contains(cmd, "email")
    ensures Fires(cmd, DeviceRule) == (Contains(cmd, "turn on") || Contains(cmd, "turn off"))
    ensures Fires(cmd, OpenRule) == Contains(cmd, "open")
  {
    AnyInThree(cmd, "exit", "quit", "stop");
    AnyInOne(cmd, "time");
    AnyInTwo(cmd, "date", "day");
    AnyInOne(cmd, "weather");
    AnyInOne(cmd, "remind me to");
    AnyInOne(cmd, "email");
    AnyInTwo(cmd, "turn on", "turn off");
    AnyInOne(cmd, "open");
  }

  lemma AnyInOne(cmd: string, a: string)
    ensures AnyIn(cmd, [a]) == Contains(cmd, a)
  {
    assert [a][1..] == [];
  }

  lemma AnyInTwo(cmd: string, a: string, b: string)
    ensures AnyIn(cmd, [a, b]) == (Contains(cmd, a) || Contains(cmd, b))
  {
    assert [a, b][1..] == [b];
    AnyInOne(cmd, b);
  }

  lemma AnyInThree(cmd: string, a: string, b: string, c: string)
    ensures AnyIn(cmd, [a, b, c]) == (Contains(cmd, a) || Contains(cmd, b) || Contains(cmd, c))
  {
    assert [a, b, c][1..] == [b, c];
    AnyInTwo(cmd, b, c);
  }

  /**
   * What the parser's tests say when the rule at index `k` is the first to
   * fire: every earlier test fails and the test of rule `k` succeeds.
   */
  lemma FirstFiringTests(cmd: string, k: nat)
    requires FirstFiring(cmd, 0) == Some(k)
    ensures 0 < k ==> !AnyIn(cmd, ["exit", "quit", "stop"])
    ensures 1 < k ==> !Contains(cmd, "time")
    ensures 2 < k ==> !Contains(cmd, "date") && !Contains(cmd, "day")
    ensures 3 < k ==> !Contains(cmd, "weather")
    ensures 4 < k ==> !Contains(cmd, "remind me to")
    ensures 5 < k ==> !Contains(cmd, "email")
    ensures 6 < k ==> !Contains(cmd, "turn on") && !Contains(cmd, "turn off")
    ensures k == 0 ==> AnyIn(cmd, ["exit", "quit", "stop"])
    ensures k == 1 ==> Contains(cmd, "time")
    ensures k == 2 ==> Contains(cmd, "date") || Contains(cmd, "day")
    ensures k == 3 ==> Contains(cmd, "weather")
    ensures k == 4 ==> Contains(cmd, "remind me to")
    ensures k == 5 ==> Contains(cmd, "email")
    ensures k == 6 ==> Contains(cmd, "turn on") || Contains(cmd, "turn off")
    ensures k == 7 ==> Contains(cmd, "open")
  {
    KeywordTests(cmd);
    assert k < 8;
    forall j | 0 <= j < k ensures !Fires(cmd, Priority[j]) {
    }
  }

  /** An exit word anywhere ends the session. */
  lemma ExitFirst(cmd: string, defaultCity: string)
    requires cmd != [] && FirstFiring(cmd, 0) == Some(0)
    ensures Route(cmd, defaultCity) == Exit
  {
    FirstFiringTests(cmd, 0);
  }

  /** "time" with no exit word asks for the time. */
  lemma TimeFirst(cmd: string, defaultCity: string)
    requires cmd != [] && FirstFiring(cmd, 0) == Some(1)
    ensures Route(cmd, defaultCity) == Time
  {
    FirstFiringTests(cmd, 1);
  }

  /** "date" or "day", with no earlier keyword, asks for the date. */
  lemma DateFirst(cmd: string, defaultCity: string)
    requires cmd != [] && FirstFiring(cmd, 0) == Some(2)
    ensures Route(cmd, defaultCity) == Date
  {
    FirstFiringTests(cmd, 2);
  }

  /** "weather", with no earlier keyword, asks for the weather of the named or the default city. */
  lemma WeatherFirst(cmd: string, defaultCity: string)
    requires cmd != [] && FirstFiring(cmd, 0) == Some(3)
    ensures Route(cmd, defaultCity) == Weather(WeatherCity(cmd, defaultCity))
  {
    FirstFiringTests(cmd, 3);
  }

  /**
   * "remind me to", with no earlier keyword, sets the parsed reminder, or only
   * explains the phrasing when the reminder pattern does not match.
   */
  lemma ReminderFirst(cmd: string, defaultCity: string)
    requires cmd != [] && FirstFiring(cmd, 0) == Some(4)
    ensures ParseReminder(cmd).Some? ==>
              Route(cmd, defaultCity) == Reminder(ParseReminder(cmd).value.task, ParseReminder(cmd).value.delay)
    ensures ParseReminder(cmd).None? ==> Route(cmd, defaultCity) == ReminderUsage
  {
    FirstFiringTests(cmd, 4);
  }

  /** "email", with no earlier keyword, starts the e-mail dialogue. */
  lemma EmailFirst(cmd: string, defaultCity: string)
    requires cmd != [] && FirstFiring(cmd, 0) == Some(5)
    ensures Route(cmd, defaultCity) == Email
  {
    FirstFiringTests(cmd, 5);
  }

  /** "turn on" or "turn off", with no earlier keyword, sends the whole utterance to the broker. */
  lemma DeviceFirst(cmd: string, defaultCity: string)
    requires cmd != [] && FirstFiring(cmd, 0) == Some(6)
    ensures Route(cmd, defaultCity) == Device(cmd)
  {
    FirstFiringTests(cmd, 6);
  }

  /** "open", with no earlier keyword, opens what is left once "open" is cut out and the ends trimmed. */
  lemma OpenFirst(cmd: string, defaultCity: string)
    requires cmd != [] && FirstFiring(cmd, 0) == Some(7)
    ensures Route(cmd, defaultCity) == Open(OpenTarget(cmd))
  {
    FirstFiringTests(cmd, 7);
  }

  /**
   * The rule whose branch the parser's chain of tests enters, read off the
   * tests alone. It restates the chain of `Route` without the branches'
   * payloads, so that the proofs bridging `Route` and the rule table need not
   * unfold the weather, reminder and open computations.
   */
  function ChainRule(cmd: string): Option<Rule> {
    if AnyIn(cmd, ["exit", "quit", "stop"]) then Some(ExitRule)
    else if Contains(cmd, "time") then Some(TimeRule)
    else if Contains(cmd, "date") || Contains(cmd, "day") then Some(DateRule)
    else if Contains(cmd, "weather") then Some(WeatherRule)
    else if Contains(cmd, "remind me to") then Some(ReminderRule)
    else if Contains(cmd, "email") then Some(EmailRule)
    else if Contains(cmd, "turn on") || Contains(cmd, "turn off") then Some(DeviceRule)
    else if Contains(cmd, "open") then Some(OpenRule)
    else None
  }

  /** The intent of a non-empty utterance comes from the branch the chain enters. */
  lemma RouteTakesChainRule(cmd: string, defaultCity: string)
    requires cmd != []
    ensures RuleOf(Route(cmd, defaultCity)) == ChainRule(cmd)
  {
  }

  /** The branch the chain enters is the first rule of the table that fires. */
  lemma ChainRuleIsFirstFiring(cmd: string)
    ensures FirstFiring(cmd, 0).Some? ==> ChainRule(cmd) == Some(Priority[FirstFiring(cmd, 0).value])
    ensures FirstFiring(cmd, 0).None? ==> ChainRule(cmd).None?
  {
    PriorityEntries();
    match FirstFiring(cmd, 0)
    case None => NoFiringTests(cmd);
    case Some(k) => FirstFiringTests(cmd, k);
  }

  /** The intent of a non-empty utterance comes from the first rule of the table that fires. */
  lemma RouteFollowsFirst(cmd: string, defaultCity: string, k: nat)
    requires cmd != [] && FirstFiring(cmd, 0) == Some(k)
    ensures RuleOf(Route(cmd, defaultCity)) == Some(Priority[k])
  {
    RouteTakesChainRule(cmd, defaultCity);
    ChainRuleIsFirstFiring(cmd);
  }

  /** The table, entry by entry. */
  lemma PriorityEntries()
    ensures Priority[0] == ExitRule && Priority[1] == TimeRule && Priority[2] == DateRule
    ensures Priority[3] == WeatherRule && Priority[4] == ReminderRule && Priority[5] == EmailRule
    ensures Priority[6] == DeviceRule && Priority[7] == OpenRule
  {
  }

  /** A non-empty utterance that fires no rule of the table falls through to the fallback. */
  lemma RouteWhenNoneFires(cmd: string, defaultCity: string)
    requires cmd != [] && FirstFiring(cmd, 0).None?
    ensures Route(cmd, defaultCity) == Fallback(cmd)
  {
    NoFiringTests(cmd);
  }

  /** When no rule fires, every test of the parser fails. */
  lemma NoFiringTests(cmd: string)
    requires FirstFiring(cmd, 0).None?
    ensures !AnyIn(cmd, ["exit", "quit", "stop"]) && !Contains(cmd, "time")
    ensures !Contains(cmd, "date") && !Contains(cmd, "day") && !Contains(cmd, "weather")
    ensures !Contains(cmd, "remind me to") && !Contains(cmd, "email")
    ensures !Contains(cmd, "turn on") && !Contains(cmd, "turn off") && !Contains(cmd, "open")
  {
    KeywordTests(cmd);
    assert !Fires(cmd, Priority[0]) && !Fires(cmd, Priority[1]) && !Fires(cmd, Priority[2]);
    assert !Fires(cmd, Priority[3]) && !Fires(cmd, Priority[4]) && !Fires(cmd, Priority[5]);
    assert !Fires(cmd, Priority[6]) && !Fires(cmd, Priority[7]);
  }

  /**
   * The parser is the rule table read in order: a non-empty utterance gets the
   * intent of the first rule that fires, and the fallback when none does.
   */
  lemma RouteFollowsPriority(cmd: string, defaultCity: string)
    ensures cmd == [] ==> Route(cmd, defaultCity) == NoIntent
    ensures cmd != [] && FirstFiring(cmd, 0).Some? ==>
              RuleOf(Route(cmd, defaultCity)) == Some(Priority[FirstFiring(cmd, 0).value])
    ensures cmd != [] && FirstFiring(cmd, 0).None? ==> Route(cmd, defaultCity) == Fallback(cmd)
  {
    if cmd != [] {
      match FirstFiring(cmd, 0)
      case Some(k) => RouteFollowsFirst(cmd, defaultCity, k);
      case None => RouteWhenNoneFires(cmd, defaultCity);
    }
  }

  /** A rule that fires shadows every rule after it. */
  lemma Precedence(cmd: string, defaultCity: string, i: nat, j: nat)
    requires cmd != [] && i < j < |Priority|
    requires Fires(cmd, Priority[i])
    ensures RuleOf(Route(cmd, defaultCity)) != Some(Priority[j])
  {
    RouteFollowsPriority(cmd, defaultCity);
  }

  /**
   * Exhaustiveness: a non-empty utterance falls through to the encyclopedia
   * exactly when no rule fires, and then the whole utterance is the query.
   */
  lemma FallbackExactlyWhenNoRule(cmd: string, defaultCity: string)
    ensures Route(cmd, defaultCity).Fallback? <==> cmd != [] && forall rule: Rule :: !Fires(cmd, rule)
    ensures Route(cmd, defaultCity).Fallback? ==> Route(cmd, defaultCity).query == cmd
  {
    RouteFollowsPriority(cmd, defaultCity);
    if cmd != [] && FirstFiring(cmd, 0).None? {
      forall rule: Rule ensures !Fires(cmd, rule) {
        assert rule == Priority[PriorityIndex(rule)];
      }
    }
  }

  /** Where each rule stands in the table. */
  function PriorityIndex(rule: Rule): (i: nat)
    ensures i < |Priority| && Priority[i] == rule
  {
    match rule
    case ExitRule => 0
    case TimeRule => 1
    case DateRule => 2
    case WeatherRule => 3
    case ReminderRule => 4
    case EmailRule => 5
    case DeviceRule => 6
    case OpenRule => 7
  }

  /** An exit word anywhere, even inside another word, ends the session whatever else is said. */
  lemma ExitWins(cmd: string, defaultCity: string)
    requires Contains(cmd, "exit") || Contains(cmd, "quit") || Contains(cmd, "stop")
    ensures Route(cmd, defaultCity) == Exit
  {
    assert cmd != [];
    assert AnyIn(cmd, ["exit", "quit", "stop"]);
  }

  /** Only the reminder rule, reached first, yields a reminder or the reminder usage hint. */
  lemma ReminderIntentsNeedReminderRule(cmd: string, defaultCity: string)
    ensures Route(cmd, defaultCity).Reminder? || Route(cmd, defaultCity).ReminderUsage? ==>
              cmd != [] && FirstFiring(cmd, 0) == Some(4)
  {
    RouteFollowsPriority(cmd, defaultCity);
    ReminderRuleOf(Route(cmd, defaultCity));
    var first := FirstFiring(cmd, 0);
    if cmd != [] && first.Some? && Priority[first.value] == ReminderRule {
      ReminderRuleIndex(first.value);
    }
  }

  /** Exactly the two reminder intents come from the reminder rule. */
  lemma ReminderRuleOf(intent: Intent)
    ensures intent.Reminder? || intent.ReminderUsage? <==> RuleOf(intent) == Some(ReminderRule)
  {
  }

  /** The reminder rule stands fifth in the table, and nowhere else. */
  lemma ReminderRuleIndex(k: nat)
    requires k < |Priority| && Priority[k] == ReminderRule
    ensures k == 4
  {
  }

  /**
   * A reminder is made only when the reminder rule is the first to fire and
   * the phrase parses; when it does not parse, only the usage hint results.
   */
  lemma ReminderOnlyOnMatch(cmd: string, defaultCity: string)
    ensures Route(cmd, defaultCity).Reminder? <==>
              cmd != [] && FirstFiring(cmd, 0) == Some(4) && ParseReminder(cmd).Some?
    ensures Route(cmd, defaultCity).ReminderUsage? <==>
              cmd != [] && FirstFiring(cmd, 0) == Some(4) && ParseReminder(cmd).None?
    ensures Route(cmd, defaultCity).Reminder? ==>
              ParseReminder(cmd) == Some(ReminderRequest(Route(cmd, defaultCity).task, Route(cmd, defaultCity).delay))
  {
    ReminderIntentsNeedReminderRule(cmd, defaultCity);
    if cmd != [] && FirstFiring(cmd, 0) == Some(4) {
      ReminderFirst(cmd, defaultCity);
    }
  }

  /** An utterance with "time" and no exit word asks for the time, whatever else it names. */
  lemma TimeBeforeDate(cmd: string, defaultCity: string)
    requires !AnyIn(cmd, ["exit", "quit", "stop"]) && Contains(cmd, "time")
    ensures Route(cmd, defaultCity) == Time
  {
  }

  /** "what day and time": time is tested before date and day. */
  lemma DayAndTimeIsTime(cmd: string, defaultCity: string)
    requires cmd == "what day and time"
    ensures Route(cmd, defaultCity) == Time
  {
    DayAndTimeChars(cmd);
    NoExitWordIn(cmd);
    OccurrenceContained(cmd, "time", 13);
    TimeBeforeDate(cmd, defaultCity);
  }

  /** The letters "what day and time" lacks. */
  lemma DayAndTimeChars(cmd: string)
    requires cmd == "what day and time"
    ensures 'x' !in cmd && 'q' !in cmd && 's' !in cmd
  {
  }

  /** Without an 'x', a 'q' and an 's', no exit word can occur. */
  lemma NoExitWordIn(cmd: string)
    requires 'x' !in cmd && 'q' !in cmd && 's' !in cmd
    ensures !AnyIn(cmd, ["exit", "quit", "stop"])
  {
    MissingCharNotContained(cmd, "exit", 1);
    MissingCharNotContained(cmd, "quit", 0);
    MissingCharNotContained(cmd, "stop", 0);
    AnyInThree(cmd, "exit", "quit", "stop");
  }

  /** "weather" before any other keyword but the earlier ones asks for the weather, even beside "open". */
  lemma WeatherBeforeOpen(cmd: string, defaultCity: string)
    requires !AnyIn(cmd, ["exit", "quit", "stop"])
    requires !Contains(cmd, "time") && !Contains(cmd, "date") && !Contains(cmd, "day")
    requires Contains(cmd, "weather")
    ensures Route(cmd, defaultCity) == Weather(WeatherCity(cmd, defaultCity))
  {
  }

  /** "open the weather app": weather is tested before open, and no city is named. */
  lemma OpenWeatherAppIsWeather(cmd: string, defaultCity: string)
    requires cmd == "open the weather app"
    ensures Route(cmd, defaultCity) == Weather(defaultCity)
  {
    OpenWeatherAppChars(cmd);
    NoExitWordIn(cmd);
    MissingCharNotContained(cmd, "time", 1);
    MissingCharNotContained(cmd, "date", 0);
    MissingCharNotContained(cmd, "day", 0);
    MissingCharNotContained(cmd, "in ", 0);
    OpenWeatherAppHasWeather(cmd);
    WeatherBeforeOpen(cmd, defaultCity);
    DefaultCityWithoutIn(cmd, defaultCity);
  }

  /** The letters "open the weather app" lacks. */
  lemma OpenWeatherAppChars(cmd: string)
    requires cmd == "open the weather app"
    ensures 'x' !in cmd && 'q' !in cmd && 's' !in cmd && 'i' !in cmd && 'd' !in cmd
  {
  }

  /** "open the weather app" holds "weather". */
  lemma OpenWeatherAppHasWeather(cmd: string)
    requires cmd == "open the weather app"
    ensures Contains(cmd, "weather")
  {
    OccurrenceContained(cmd, "weather", 9);
  }

  /** "nonstop music": "stop" inside a word still means exit. */
  lemma NonstopIsExit(cmd: string, defaultCity: string)
    requires cmd == "nonstop music"
    ensures Route(cmd, defaultCity) == Exit
  {
    OccurrenceContained(cmd, "stop", 3);
    ExitWins(cmd, defaultCity);
  }
}
