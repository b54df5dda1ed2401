# Voice assistant command core, modelled in Dafny

The assistant hears an utterance, lower-cases it and hands it to
`parse_command`. That function runs a fixed chain of substring tests, and the
first test that succeeds decides what happens:

- exit;
- say the time or the date;
- look up the weather for a city found with the regex `in (\w+)`;
- set a reminder parsed with the regex
  `remind me to (.+?) in (\d+) (seconds?|minutes?|hours?)`;
- start the e-mail dialogue;
- send a smart-home command;
- open an application or a web site;
- otherwise, fall back to an encyclopedia query.

This project models that decision core and proves what it does.

- `wrappers.dfy` (`Wrappers`): the `Option` type.
- `text.dfy` (`Text`): the Python string operations the parser uses:
  - `p in s` and leftmost search;
  - `s.replace(p, "")` and `s.strip()`;
  - `s.lower()`;
  - the regex classes `\d` and `\w`.
- `patterns.dfy` (`Patterns`): both regular expressions, written as matchers with the semantics of
  `re.search`:
  - the leftmost start wins;
  - the task group `(.+?)` is lazy and never crosses a newline;
  - `\d+` is greedy;
  - the unit alternation is tried in its written order, each unit plural first;
  - there is no end anchor.
- `reminder_parsing.dfy` (`ReminderParsing`): the groups of the reminder match turned into a task
  and a delay in seconds. The delay is computed as the parser computes it: the number is multiplied
  by 60 when the unit contains "minute" and by 3600 when it contains "hour". A lemma shows that this
  is the unit's number of seconds for each of the six unit words.
- `router.dfy` (`Router`): `parse_command` as the pure function `Route` from the utterance to an
  `Intent`, and the same chain restated as an ordered rule table. Lemmas prove
  that the router is that table read in order: precedence, exhaustiveness of the
  fallback, exit wins, and when reminders arise.
- `opening.dfy` (`Opening`): the "open" branch:
  - the target is cut out of the utterance;
  - `LOCAL_APPS` is scanned for the first entry the fuzzy matcher scores above 80, with a loop method
    proved against a first-match function;
  - failing that, the address comes from `WEBSITE_MAP` or is made up from the target.
- `reminders.dfy` (`Reminders`): `set_reminder` as a class holding the reminders table and the
  scheduler's armed jobs. Each reminder appends one row with a fresh id and arms
  one job at the same time. The class invariant ties the jobs one to one to the
  newest rows.
- `assistant.dfy` (`Assistant`): `parse_command` with its effects: the intent from `Route`, the
  reminder stored and armed, and the application or address chosen for "open".

Some inputs are parameters of the model:

- `fuzz.ratio` is any function into the scores 0..100.
- The clock reading `now` is an integer.
- `DEFAULT_CITY` is the `defaultCity` argument.

## Model

| member | source | states |
|---|---|---|
| Text.Contains | assistant.py:187 | Python's `p in s`: `p` is a prefix of `s` or of one of its suffixes; its meaning is proved in `Text.ContainsIff` |
| Text.ContainsIff | assistant.py:187 | `p in s` holds exactly when `p` occurs at some index of `s`, and exactly when the leftmost search finds it |
| Text.MissingCharNotContained | assistant.py:187 | a character of `p` that `s` lacks rules out `p in s` |
| Text.OccurrenceContained | assistant.py:187 | an occurrence of `p` at any index makes `p in s` true |
| Text.RemoveAll | assistant.py:236 | `s.replace(p, "")` never lengthens the string |
| Text.RemoveAllNoOccurrence | assistant.py:236 | the replace leaves a string without an occurrence of `p` unchanged |
| Text.RemoveAllFirstOccurrence | assistant.py:236 | the replace keeps the text before the leftmost occurrence, drops that occurrence and carries on after it |
| Text.RemoveAllChar | assistant.py:246 | `site.replace(' ', '')` removes every space and keeps the count of every other character |
| Text.WithoutAppend | assistant.py:246 | dropping the spaces from a concatenation drops them from each part and keeps the parts in order, so the characters kept by `site.replace(' ', '')` stay in their order |
| Text.LeadingSpaceRun | assistant.py:236 | the characters `strip()` cuts off at the front are all whitespace |
| Text.LeadingSpaceStop | assistant.py:236 | the front cut stops at a non-space character or at the end |
| Text.TrailingSpaceRun | assistant.py:236 | the characters `strip()` cuts off at the back are all whitespace |
| Text.TrailingSpaceStop | assistant.py:236 | the back cut stops after a non-space character or at the start |
| Text.Strip | assistant.py:236 | `s.strip()`: the slice between the leading and the trailing whitespace; what it promises is proved in `Text.StripSpec` and `Text.StripCutsWhitespace` |
| Text.StripSpec | assistant.py:236 | `strip()` never lengthens the string, and its result neither starts nor ends with whitespace |
| Text.StripCutsWhitespace | assistant.py:236 | `strip()` returns a contiguous slice of the string, and everything cut off on either side is whitespace |
| Text.StripIdempotent | assistant.py:236 | stripping a stripped string changes nothing |
| Text.Lower | assistant.py:246 | `lower()` keeps the length, lowers each character and leaves no upper-case letter |
| Text.LowerOfLower | assistant.py:246 | lowering text without upper-case letters changes nothing |
| Patterns.WordRun | assistant.py:204 | `\w+` takes the maximal run of word characters |
| Patterns.FindCity | assistant.py:204 | the weather pattern is reported at its leftmost matching index, and no earlier index matches |
| Patterns.WeatherCity | assistant.py:204-205 | the city is the whole word-character run after the leftmost matching `in `, or the default city when the pattern matches nowhere |
| Patterns.DefaultCityWithoutIn | assistant.py:204-205 | a command without `in ` gets the default city |
| Patterns.DigitRun | assistant.py:211 | `\d+` takes the maximal run of digits |
| Patterns.DigitBacktrackUseless | assistant.py:211 | only the whole digit run can be followed by the space the pattern needs, so backtracking into `\d+` never matches |
| Patterns.NewlineEndsTask | assistant.py:211 | the task group cannot run across a newline |
| Patterns.UnitAt | assistant.py:211 | the unit alternation tried in its written order, second, minute, hour, each with the plural `s` tried first; every unit it yields in a match is one of the six unit words, as `Patterns.GroupsWellFormed` proves |
| Patterns.TailAt | assistant.py:211 | the tail ` in (\d+) (unit)` with the whole digit run, which `Patterns.DigitBacktrackUseless` shows is the only run that can match |
| Patterns.LazyTask | assistant.py:211 | the lazy `(.+?)`: the first task length from `len` on with which the rest of the pattern matches; its meaning is proved in `Patterns.LazyTaskShortest` |
| Patterns.LazyTaskShortest | assistant.py:211 | the lazy task search finds a match, and no shorter task matches at that start; when it finds none, no task length matches there |
| Patterns.StartNeedsPrefix | assistant.py:211 | no match starts where the literal `remind me to ` does not occur |
| Patterns.NoEmptyTask | assistant.py:211 | `(.+?)` never matches an empty task |
| Patterns.SearchReminder | assistant.py:211 | `re.search` trying each start in turn; what it returns is proved in `Patterns.SearchReminderSpec` |
| Patterns.SearchReminderSpec | assistant.py:211 | the search returns the match with the leftmost start and, at that start, the shortest task; it returns nothing only when no start and no task length match |
| Patterns.GroupsWellFormed | assistant.py:211-213 | in any match, the task is non-empty and has no newline, the value is a non-empty digit string, and the unit is one of the six unit words |
| Patterns.SearchGroupsWellFormed | assistant.py:211-213 | whatever the search reports has well-formed groups |
| Patterns.MatchReminder | assistant.py:211-213 | `re.search` of the reminder pattern over the whole command; what it returns is proved in `Patterns.MatchReminderSpec` |
| Patterns.MatchReminderSpec | assistant.py:211-213 | `re.search` over the command: no match exactly when the pattern matches nowhere; otherwise the leftmost-then-shortest match, with well-formed groups |
| Patterns.DigitsValue | assistant.py:214 | `int(value)` for a string of ASCII digits, read from the most significant digit; its properties are proved in the lemmas below |
| Patterns.DigitsValueLeadingZero | assistant.py:214 | a leading zero does not change `int(value)` |
| Patterns.DigitsValueBelow | assistant.py:214 | a string of n digits denotes a value below 10^n |
| Patterns.DigitsValueAtLeast | assistant.py:214 | a string of n digits that does not start with `0` denotes at least 10^(n-1), so with the previous row it has exactly n digits |
| ReminderParsing.Delay | assistant.py:214-218 | the delay as the parser computes it: the number, times 60 when the unit contains "minute", else times 3600 when it contains "hour"; `ReminderParsing.DelayCorrect` proves it is the number times the unit's seconds |
| ReminderParsing.MinuteUnit | assistant.py:215-216 | `"minute" in unit` holds for minute and minutes |
| ReminderParsing.HourUnit | assistant.py:215-218 | hour and hours fail the minute test and pass the hour test |
| ReminderParsing.SecondUnit | assistant.py:214-218 | second and seconds fail both tests, so the delay stays `int(value)` |
| ReminderParsing.DelayCorrect | assistant.py:214-218 | the parser's substring tests on the unit multiply the value by 1 for second(s), 60 for minute(s) and 3600 for hour(s) |
| ReminderParsing.ParseReminder | assistant.py:211-219 | the reminder branch's parse: the task group and the delay, or nothing when the pattern does not match; proved in `ReminderParsing.ParseReminderSpec` |
| ReminderParsing.ParseReminderSpec | assistant.py:211-219 | the parse fails exactly when `re.search` fails, and then the pattern matches nowhere; on a match, the task is the task group and the delay is `int(value)` times the unit's seconds |
| ReminderParsing.ParseReminderNoneIff | assistant.py:211-221 | no reminder results exactly when the pattern matches nowhere in the command |
| ReminderParsing.NoDigitNoReminder | assistant.py:211-221 | a command without a digit never yields a reminder |
| ReminderParsing.NothingIsUsage | assistant.py:220-221 | "remind me to nothing" yields no reminder |
| ReminderParsing.CallMomShortestTask | assistant.py:211 | in "remind me to call mom in 5 minutes" no task shorter than "call mom" is followed by ` in ` |
| ReminderParsing.CallMomGroups | assistant.py:211-213 | the search over "remind me to call mom in 5 minutes" gives the groups "call mom", "5" and "minutes" |
| ReminderParsing.CallMomInFiveMinutes | assistant.py:211-219 | "remind me to call mom in 5 minutes" yields the task "call mom" with a delay of 300 seconds |
| Router.Route | assistant.py:179-258 | `parse_command`'s decision: the chain of tests, each branch giving its intent; that it is the rule table read in order is proved in `Router.RouteFollowsPriority` and the lemmas after it |
| Router.FirstFiring | assistant.py:186-235 | the index of the first rule in the table whose keyword test succeeds; no earlier rule's test succeeds |
| Router.AnyInExists | assistant.py:187 | `any(x in cmd for x in ks)` holds exactly when some keyword of the list occurs |
| Router.KeywordTests | assistant.py:187-235 | each test the parser writes is its rule's keyword test |
| Router.FirstFiringTests | assistant.py:186-235 | when rule `k` fires first, every test written before it fails and its own test succeeds |
| Router.NoFiringTests | assistant.py:186-235 | when no rule fires, every test of the chain fails |
| Router.ExitFirst | assistant.py:187-190 | when the exit rule fires first, the intent is Exit |
| Router.TimeFirst | assistant.py:193-195 | when the time rule fires first, the intent is Time |
| Router.DateFirst | assistant.py:198-200 | when "date" or "day" is the first rule to fire, the intent is Date |
| Router.WeatherFirst | assistant.py:203-207 | when the weather rule fires first, the intent is Weather for the extracted city |
| Router.ReminderFirst | assistant.py:210-222 | when the reminder rule fires first, the intent is the parsed reminder, or the usage hint when the phrase does not parse |
| Router.EmailFirst | assistant.py:225-227 | when the e-mail rule fires first, the intent is Email |
| Router.DeviceFirst | assistant.py:230-232 | when "turn on" or "turn off" is the first rule to fire, the whole utterance goes to the broker |
| Router.OpenFirst | assistant.py:235-236 | when the open rule fires first, the target is the utterance with "open" removed and then stripped |
| Router.RouteTakesChainRule | assistant.py:186-258 | the intent of a non-empty utterance belongs to the branch that the chain of tests enters |
| Router.ChainRuleIsFirstFiring | assistant.py:186-235 | the branch the chain enters is the first rule of the table that fires, and no branch is entered when none fires |
| Router.RouteFollowsFirst | assistant.py:186-235 | a non-empty utterance gets the intent of the first rule that fires |
| Router.RouteWhenNoneFires | assistant.py:254-258 | a non-empty utterance that fires no rule falls through to the fallback with the whole utterance |
| Router.RouteFollowsPriority | assistant.py:179-258 | an empty utterance yields no intent; otherwise the first firing rule decides, and the fallback applies when none fires |
| Router.Precedence | assistant.py:186-235 | a rule that fires shadows every later rule |
| Router.FallbackExactlyWhenNoRule | assistant.py:254-258 | the fallback happens exactly for a non-empty utterance that fires no rule, and its query is the whole utterance |
| Router.PriorityIndex | assistant.py:186-235 | every rule has its place in the table |
| Router.ExitWins | assistant.py:187-190 | "exit", "quit" or "stop" anywhere, even inside a word, gives Exit whatever else the utterance says |
| Router.NonstopIsExit | assistant.py:187-190 | "nonstop music" exits |
| Router.ReminderRuleOf | assistant.py:210-222 | the reminder and the usage hint are exactly the intents of the reminder branch |
| Router.ReminderIntentsNeedReminderRule | assistant.py:210-222 | a reminder or the usage hint arises only when the reminder rule is the first to fire |
| Router.ReminderOnlyOnMatch | assistant.py:210-222 | a reminder arises exactly when the reminder rule fires first and the phrase parses, with the parsed task and delay; the usage hint arises exactly when it fires first and the phrase does not parse |
| Router.TimeBeforeDate | assistant.py:193-200 | with "time" present and no exit word, the intent is Time even if "date" or "day" also occurs |
| Router.DayAndTimeIsTime | assistant.py:193-200 | "what day and time" asks for the time |
| Router.NoExitWordIn | assistant.py:187 | without an 'x', a 'q' and an 's', none of the exit words occurs |
| Router.WeatherBeforeOpen | assistant.py:203-235 | "weather", with no exit, time or date word, gives Weather even when "open" also occurs |
| Router.OpenWeatherAppIsWeather | assistant.py:203-207 | "open the weather app" asks for the weather of the default city |
| Opening.OpenTarget | assistant.py:236 | `cmd.replace("open", "").strip()`; proved trimmed in `Opening.OpenTargetTrimmed` and computed for "open <name>" in `Opening.OpenTargetOfOpenPhrase` |
| Opening.OpenTargetTrimmed | assistant.py:236 | the target is no longer than the command and neither starts nor ends with whitespace |
| Opening.StripAfterSpace | assistant.py:236 | a leading space does not change the stripped target |
| Opening.OpenTargetOfOpenPhrase | assistant.py:236 | "open " followed by a name without "open" in it targets that name, stripped |
| Opening.FirstApp | assistant.py:237-238 | the first catalogue entry, in catalogue order, that scores above 80; none when no entry does |
| Opening.SelectApp | assistant.py:237-245 | the scan over `LOCAL_APPS` stops at the first entry above the threshold, equal to the first-match function, and returns none only when no entry clears |
| Opening.MadeUpUrl | assistant.py:246 | the made-up address adds at most the fixed prefix and suffix to the site |
| Opening.MadeUpUrlShape | assistant.py:246 | the made-up address is `https://www.` + the site with every space dropped and every other character kept + `.com` |
| Opening.Resolve | assistant.py:237-246 | the action for a target: launch the first catalogue entry above the threshold, else browse to the site's address; proved in `Opening.ResolveLaunchesFirst` and `Opening.ResolveBrowses` |
| Opening.ResolveLaunchesFirst | assistant.py:237-245 | an application is launched exactly when some entry clears the threshold, and it is the first such entry |
| Opening.SiteUrl | assistant.py:246 | `WEBSITE_MAP.get(site.lower(), made-up address)`; stated by `Opening.ResolveBrowses` and `Opening.MadeUpUrlShape` |
| Opening.ResolveBrowses | assistant.py:246 | with no entry above the threshold, the address comes from `WEBSITE_MAP` by the lower-cased target; otherwise it is made up |
| Opening.YoutubeOpensTableUrl | assistant.py:163-164 | "youtube", with no application above the threshold, opens the table's address |
| Reminders.JobFor | assistant.py:109 | the job armed for a row runs at the row's time and says "Reminder: " followed by the row's text, as the lambda passed to `add_job` does; that each stored row gets this one job is stated by `Reminders.ReminderStore.SetReminder` and its `Valid()` |
| Reminders.JobForDeterminesRow | assistant.py:109 | two rows get the same job exactly when they share their time and their text |
| Reminders.MaxId | assistant.py:54 | the largest id in a non-empty table |
| Reminders.NextRowId | assistant.py:107 | the new row's id is above every id in the table; it is 1 for an empty table and otherwise one more than an existing id |
| Reminders.NextRowIdFollowsLast | assistant.py:107 | in an id-ordered table, the new id follows the last row's |
| Reminders.ReminderStore.constructor | assistant.py:52-55 | the store opens over the existing rows with no armed job |
| Reminders.ReminderStore.SetReminder | assistant.py:105-110 | the firing time is `now + delay`; exactly one row with a fresh id and that time is appended, and exactly one job at that same time is armed; nothing already there changes, and the invariant is kept |
| Assistant.Perform | assistant.py:210-252 | a reminder appends one row and arms one job at `now + delay`, and every other intent leaves the store alone; "open" yields the resolved launch or address, and every other intent yields no action |
| Assistant.ParseCommand | assistant.py:179-258 | the intent is the router's, and the store and the action change as `Perform` states |

## Left out

- **Speech and output.**
  - Speech capture and recognition are not modelled, and neither is the listener thread with its keep-alive loop.
  - Text-to-speech is not modelled, and neither is what the assistant says. Most messages depend on things outside the model: the clock (`strftime` for the time, the date and the reminder confirmation), the weather service's reply, the outcome of the e-mail, broker, encyclopedia and language-model calls, and whether a launch or a browser call raised an error.
  - The model takes the utterance as `parse_command` receives it. The caller's `lower()` is not part of it.
- **External services.**
  - E-mail over SMTP, the weather HTTP request, the MQTT publish and the encyclopedia lookup are foreign calls. Each is reported only as its intent (`Email`, `Weather(city)`, `Device(cmd)`, `Fallback(cmd)`).
  - The encyclopedia lookup catches the errors of the lookup itself, so the language-model fallback after it is reached only when the speech call in the lookup's own error handler raises (for example when the speech engine is already busy speaking a reminder on the scheduler's thread). That path and the language-model call are not modelled.
- **Process and database.**
  - `scheduler.shutdown()` and `exit()` appear only as the `Exit` intent. `parse_command` runs in the listener's callback thread, so `exit()` raises `SystemExit` there and ends only the listening thread; the main thread keeps running its sleep loop until interrupted. Neither the end of the listener thread nor the process that keeps running is modelled.
  - The SQLite database, the commit and the scheduler's armed jobs are represented by the two sequences of `ReminderStore`. The rows a previous session left are the constructor's argument; the writing of the database file, the firing of jobs and failures of the store are not modelled.
- Reminders.ReminderStore.SetReminder: the firing time is an unbounded integer count of seconds, not a `datetime`. In the source, a delay that takes the time past the year 9999 makes `datetime.now() + timedelta(...)` raise `OverflowError` before the insert, so no row is stored and no job is armed, and nothing catches the error. The model stores and arms the reminder for every delay.
- Assistant.Perform and Assistant.ParseCommand inherit that difference: for a delay beyond `datetime`'s range they promise the appended row and job, which the source never makes.
- Patterns.DigitsValue, ReminderParsing.ParseReminder, Router.Route, Assistant.Perform and Assistant.ParseCommand: `int(value)` raises `ValueError` in the source for a digit string longer than Python's default limit of 4300 digits, while the model converts digit strings of any length, so for such an utterance these members give a reminder where the source gives none.
- Reminders.NextRowId: SQLite's rowid limit of 2^63-1 is not modelled. At that limit SQLite picks an unused id at random, and the model always uses one more than the largest id.
- Text.Lower is ASCII only: it lowers the ASCII upper-case letters, while Python's `lower()` applies Unicode case mapping.
- Patterns.WordRun, Patterns.FindCity, Patterns.WeatherCity and, through them, Router.Route are ASCII only: `\w` is taken as ASCII letters, digits and `_`, while Python's `\w` is Unicode. For "weather in zürich" the model's city is "z" where the source's is "zürich", and for "weather in ürümqi" the model falls back to the default city.
- Patterns.DigitRun, Patterns.TailAt, Patterns.SearchReminder, Patterns.MatchReminder and, through them, ReminderParsing.ParseReminder, Router.Route, Assistant.Perform and Assistant.ParseCommand are ASCII only: `\d` is taken as the ASCII digits, while Python's `\d` matches every Unicode decimal digit. For "remind me to x in ٥ minutes" the source sets a reminder where the model gives the usage hint.
- Opening.Resolve gives the launch or the address as an action. Starting the program or the browser, and the message spoken when that raises an error, are left out. A failed launch never moves the scan on to a later entry.
- Opening.FirstApp: `fuzz.ratio` is any function into 0..100, and its real scores are not modelled.
- Opening.SiteUrl has no contract of its own. Its behaviour is stated by `Opening.ResolveBrowses` and `Opening.MadeUpUrlShape`.
- Text.Strip, Opening.OpenTarget, Patterns.SearchReminder, Patterns.MatchReminder, ReminderParsing.ParseReminder and Reminders.JobFor carry no `ensures` of their own. What each promises is proved in a lemma beside it: `Text.StripSpec` and `Text.StripCutsWhitespace`, `Opening.OpenTargetTrimmed`, `Patterns.SearchReminderSpec`, `Patterns.MatchReminderSpec`, `ReminderParsing.ParseReminderSpec`, and `Reminders.JobForDeterminesRow` with `Reminders.ReminderStore.SetReminder`.
