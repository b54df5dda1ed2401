/**
 * The two regular expressions of the command parser, written out as matchers
 * with the semantics of Python's `re.search`: the leftmost starting index
 * wins, and at that index the regex's own backtracking order decides.
 */
module Patterns {
  import opened Wrappers
  import opened Text

  // ---------------------------------------------------------------------
  // Weather city: re.search(r"in (\w+)", cmd)
  // ---------------------------------------------------------------------

  /** Length of the run of word characters starting at index `k`. */
  function WordRun(s: string, k: nat): (n: nat)
    ensures k + n <= |s| || (k >= |s| && n == 0)
    ensures forall j :: k <= j < k + n ==> IsWordChar(s[j])
    ensures k + n < |s| ==> !IsWordChar(s[k + n])
    decreases |s| - k
  {
    if k < |s| && IsWordChar(s[k]) then 1 + WordRun(s, k + 1) else 0
  }

  /** `in (\w+)` can match starting at index `i`. */
  predicate CityMatchAt(s: string, i: nat) {
    OccursAt(s, "in ", i) && i + 3 < |s| && IsWordChar(s[i + 3])
  }

  /** Leftmost index at or after `from` where `in (\w+)` matches. */
  function FindCity(s: string, from: nat): (r: Option<nat>)
    ensures r.Some? ==> from <= r.value && CityMatchAt(s, r.value)
    ensures r.Some? ==> forall j :: from <= j < r.value ==> !CityMatchAt(s, j)
    ensures r.None? ==> forall j :: from <= j ==> !CityMatchAt(s, j)
    decreases |s| - from
  {
    if from + 3 >= |s| then None
    else if CityMatchAt(s, from) then Some(from)
    else FindCity(s, from + 1)
  }

  /** `city` is the whole run of word characters that follows the "in " at `i`. */
  predicate IsCityGroup(s: string, i: nat, city: string) {
    && i + 3 + |city| <= |s|
    && city == s[i + 3..i + 3 + |city|]
    && city != []
    && (forall k :: 0 <= k < |city| ==> IsWordChar(city[k]))
    && (i + 3 + |city| < |s| ==> !IsWordChar(s[i + 3 + |city|]))
  }

  /**
   * The city of a weather request: the group of the leftmost match of
   * `in (\w+)`, which is the longest run of word characters after that
   * "in ", or the default city when the pattern matches nowhere.
   */
  function WeatherCity(cmd: string, defaultCity: string): (city: string)
    ensures FindCity(cmd, 0).None? ==> city == defaultCity
    ensures FindCity(cmd, 0).Some? ==> IsCityGroup(cmd, FindCity(cmd, 0).value, city)
  {
    match FindCity(cmd, 0)
    case None => defaultCity
    case Some(i) => cmd[i + 3..i + 3 + WordRun(cmd, i + 3)]
  }

  /** Without "in " anywhere in the command, the default city is used. */
  lemma DefaultCityWithoutIn(cmd: string, defaultCity: string)
    requires !Contains(cmd, "in ")
    ensures WeatherCity(cmd, defaultCity) == defaultCity
  {
    if FindCity(cmd, 0).Some? {
      OccurrenceContained(cmd, "in ", FindCity(cmd, 0).value);
    }
  }

  // ---------------------------------------------------------------------
  // Reminder phrase:
  //   re.search(r"remind me to (.+?) in (\d+) (seconds?|minutes?|hours?)", cmd)
  // ---------------------------------------------------------------------

  const RemindPrefix: string := "remind me to "

  /** The groups of a successful match, and where the match starts. */
  datatype ReminderMatch = ReminderMatch(start: nat, task: string, value: string, unit: string)

  /** Length of the run of digits starting at index `k`. */
  function DigitRun(s: string, k: nat): (n: nat)
    ensures k + n <= |s| || (k >= |s| && n == 0)
    ensures forall j :: k <= j < k + n ==> IsDigit(s[j])
    ensures k + n < |s| ==> !IsDigit(s[k + n])
    decreases |s| - k
  {
    if k < |s| && IsDigit(s[k]) then 1 + DigitRun(s, k + 1) else 0
  }

  /** `word` or `word + "s"` at index `p`, the plural tried first as `s?` is greedy. */
  function Plural(s: string, word: string, p: nat): Option<string> {
    if OccursAt(s, word + "s", p) then Some(word + "s")
    else if OccursAt(s, word, p) then Some(word)
    else None
  }

  /** The alternation `(seconds?|minutes?|hours?)` at index `p`, tried in that order. */
  function UnitAt(s: string, p: nat): Option<string> {
    match Plural(s, "second", p)
    case Some(u) => Some(u)
    case None =>
      match Plural(s, "minute", p)
      case Some(u) => Some(u)
      case None => Plural(s, "hour", p)
  }

  /**
   * The tail ` in (\d+) (unit)` at index `j`, giving the digit and unit groups.
   * The digit run is taken whole: a shorter run would be followed by a digit,
   * not by the space the pattern needs, so backtracking never helps.
   */
  function TailAt(s: string, j: nat): Option<(string, string)> {
    if !OccursAt(s, " in ", j) then None
    else
      var d := DigitRun(s, j + 4);
      if d == 0 || !OccursAt(s, " ", j + 4 + d) then None
      else match UnitAt(s, j + 5 + d)
        case None => None
        case Some(u) => Some((s[j + 4..j + 4 + d], u))
  }

  /**
   * Backtracking into `\d+` cannot help: the only digit count that is followed
   * by the space of the pattern is the whole run that `TailAt` takes.
   */
  lemma DigitBacktrackUseless(s: string, p: nat, d: nat)
    requires 1 <= d && p + d < |s| && s[p + d] == ' '
    requires forall k :: p <= k < p + d ==> IsDigit(s[k])
    ensures d == DigitRun(s, p)
  {
  }

  /** `.` matches every character but a newline. */
  predicate NoNewline(t: string) {
    forall k :: 0 <= k < |t| ==> t[k] != '\n'
  }

  /** No newline among the characters of `s` from index `a` up to, not including, `b`. */
  predicate NoNewlineBetween(s: string, a: nat, b: nat) {
    forall k :: a <= k < b && k < |s| ==> s[k] != '\n'
  }

  /** The whole pattern matches at index `i` with a task group of length `len`. */
  predicate ReminderMatchAt(s: string, i: nat, len: nat) {
    && OccursAt(s, RemindPrefix, i)
    && 1 <= len && i + 13 + len <= |s|
    && NoNewlineBetween(s, i + 13, i + 13 + len)
    && TailAt(s, i + 13 + len).Some?
  }

  /** `m` holds the groups of the match at its start with its task length. */
  predicate Describes(s: string, m: ReminderMatch) {
    && ReminderMatchAt(s, m.start, |m.task|)
    && m.task == s[m.start + 13..m.start + 13 + |m.task|]
    && TailAt(s, m.start + 13 + |m.task|) == Some((m.value, m.unit))
  }

  /** No task group can run across a newline. */
  lemma NewlineEndsTask(s: string, i: nat, len: nat)
    requires 1 <= len && i + 12 + len < |s| && s[i + 12 + len] == '\n'
    ensures forall l: nat :: len <= l ==> !ReminderMatchAt(s, i, l)
  {
    forall l: nat | len <= l
      ensures !ReminderMatchAt(s, i, l)
    {
      assert !NoNewlineBetween(s, i + 13, i + 13 + l) by {
        assert s[i + 12 + len] == '\n';
      }
    }
  }

  /**
   * The lazy `(.+?)`: the shortest task length, at least `len`, with which the
   * rest of the pattern matches at `i`.
   */
  function LazyTask(s: string, i: nat, len: nat): (r: Option<nat>)
    requires NoNewlineBetween(s, i + 13, i + 12 + len)
    ensures r.Some? ==> len <= r.value
    decreases |s| - (i + 13 + len)
  {
    if i + 13 + len > |s| || len == 0 then None
    else if s[i + 12 + len] == '\n' then None
    else if TailAt(s, i + 13 + len).Some? then Some(len)
    else LazyTask(s, i, len + 1)
  }

  /** The lazy task length is a match, and no shorter task length from `len` on is. */
  lemma {:induction false} LazyTaskShortest(s: string, i: nat, len: nat)
    requires OccursAt(s, RemindPrefix, i) && 1 <= len
    requires NoNewlineBetween(s, i + 13, i + 12 + len)
    ensures LazyTask(s, i, len).Some? ==> ReminderMatchAt(s, i, LazyTask(s, i, len).value)
    ensures LazyTask(s, i, len).Some? ==>
              forall l: nat :: len <= l < LazyTask(s, i, len).value ==> !ReminderMatchAt(s, i, l)
    ensures LazyTask(s, i, len).None? ==> forall l: nat :: len <= l ==> !ReminderMatchAt(s, i, l)
    decreases |s| - (i + 13 + len)
  {
    if i + 13 + len > |s| {
      assert LazyTask(s, i, len).None?;
      forall l: nat | len <= l ensures !ReminderMatchAt(s, i, l) {
        assert i + 13 + l > |s|;
      }
    } else if s[i + 12 + len] == '\n' {
      assert LazyTask(s, i, len).None?;
      NewlineEndsTask(s, i, len);
    } else {
      NoNewlineExtend(s, i + 13, i + 12 + len);
      if TailAt(s, i + 13 + len).Some? {
        assert LazyTask(s, i, len) == Some(len);
        assert ReminderMatchAt(s, i, len);
      } else {
        var next := LazyTask(s, i, len + 1);
        assert LazyTask(s, i, len) == next;
        assert !ReminderMatchAt(s, i, len);
        LazyTaskShortest(s, i, len + 1);
        if next.Some? {
          forall l: nat | len <= l < next.value ensures !ReminderMatchAt(s, i, l) {
            if l == len {
            }
          }
        } else {
          forall l: nat | len <= l ensures !ReminderMatchAt(s, i, l) {
            if l == len {
            }
          }
        }
      }
    }
  }

  /** A newline-free stretch grows by one character that is not a newline. */
  lemma NoNewlineExtend(s: string, a: nat, b: nat)
    requires NoNewlineBetween(s, a, b) && (b < |s| ==> s[b] != '\n')
    ensures NoNewlineBetween(s, a, b + 1)
  {
  }

  /** The groups of the match at `i` with a task of length `len`. */
  function MatchGroups(s: string, i: nat, len: nat): (m: ReminderMatch)
    requires ReminderMatchAt(s, i, len)
    ensures m.start == i && |m.task| == len && Describes(s, m)
  {
    var groups := TailAt(s, i + 13 + len).value;
    ReminderMatch(i, s[i + 13..i + 13 + len], groups.0, groups.1)
  }

  /**
   * The search of `re.search`: try each start from `from` on, and at the first
   * start where the lazy task search succeeds, report the groups.
   */
  function SearchReminder(s: string, from: nat): Option<ReminderMatch>
    decreases |s| - from
  {
    if from + 13 > |s| then None
    else if !OccursAt(s, RemindPrefix, from) then SearchReminder(s, from + 1)
    else
      LazyTaskShortest(s, from, 1);
      match LazyTask(s, from, 1)
      case Some(len) => Some(MatchGroups(s, from, len))
      case None => SearchReminder(s, from + 1)
  }

  /**
   * The search finds the match with the leftmost start at or after `from` and,
   * at that start, the shortest task; it finds nothing exactly when no start
   * and no task length match.
   */
  lemma {:induction false} SearchReminderSpec(s: string, from: nat)
    ensures SearchReminder(s, from).Some? ==>
              from <= SearchReminder(s, from).value.start && Describes(s, SearchReminder(s, from).value)
    ensures SearchReminder(s, from).Some? ==>
              forall i: nat, l: nat :: from <= i < SearchReminder(s, from).value.start ==> !ReminderMatchAt(s, i, l)
    ensures SearchReminder(s, from).Some? ==>
              forall l: nat :: l < |SearchReminder(s, from).value.task| ==>
                !ReminderMatchAt(s, SearchReminder(s, from).value.start, l)
    ensures SearchReminder(s, from).None? ==> forall i: nat, l: nat :: from <= i ==> !ReminderMatchAt(s, i, l)
    decreases |s| - from
  {
    var r := SearchReminder(s, from);
    if from + 13 > |s| {
      assert r.None?;
      forall i: nat, l: nat | from <= i ensures !ReminderMatchAt(s, i, l) {
        assert i + 13 + 1 > |s|;
      }
    } else if !OccursAt(s, RemindPrefix, from) {
      assert r == SearchReminder(s, from + 1);
      SearchReminderSpec(s, from + 1);
      StartNeedsPrefix(s, from);
      LaterStartsSuffice(s, from, r);
    } else {
      LazyTaskShortest(s, from, 1);
      NoEmptyTask(s, from);
      match LazyTask(s, from, 1)
      case Some(len) =>
        assert r == Some(MatchGroups(s, from, len));
      case None =>
        assert r == SearchReminder(s, from + 1);
        SearchReminderSpec(s, from + 1);
        assert forall l: nat :: !ReminderMatchAt(s, from, l);
        LaterStartsSuffice(s, from, r);
    }
  }

  /**
   * When nothing matches at `from`, what holds of every start after `from`
   * holds of every start from `from` on.
   */
  lemma LaterStartsSuffice(s: string, from: nat, r: Option<ReminderMatch>)
    requires forall l: nat :: !ReminderMatchAt(s, from, l)
    requires r.Some? ==> forall i: nat, l: nat :: from + 1 <= i < r.value.start ==> !ReminderMatchAt(s, i, l)
    requires r.None? ==> forall i: nat, l: nat :: from + 1 <= i ==> !ReminderMatchAt(s, i, l)
    ensures r.Some? ==> forall i: nat, l: nat :: from <= i < r.value.start ==> !ReminderMatchAt(s, i, l)
    ensures r.None? ==> forall i: nat, l: nat :: from <= i ==> !ReminderMatchAt(s, i, l)
  {
    forall i: nat, l: nat | from <= i && (r.Some? ==> i < r.value.start)
      ensures !ReminderMatchAt(s, i, l)
    {
      if i == from {
      }
    }
  }

  /** No match starts where the prefix "remind me to " does not. */
  lemma StartNeedsPrefix(s: string, i: nat)
    requires !OccursAt(s, RemindPrefix, i)
    ensures forall l: nat :: !ReminderMatchAt(s, i, l)
  {
  }

  /** `(.+?)` takes at least one character. */
  lemma NoEmptyTask(s: string, i: nat)
    ensures !ReminderMatchAt(s, i, 0)
  {
  }

  /** The groups' shape: a non-empty task without newline, a digit string, one of the six unit words. */
  predicate WellFormedGroups(m: ReminderMatch) {
    && m.task != [] && NoNewline(m.task)
    && m.value != [] && (forall k :: 0 <= k < |m.value| ==> IsDigit(m.value[k]))
    && m.unit in {"second", "seconds", "minute", "minutes", "hour", "hours"}
  }

  /** What the groups of any match look like. */
  lemma GroupsWellFormed(s: string, m: ReminderMatch)
    requires Describes(s, m)
    ensures WellFormedGroups(m)
  {
    forall k | 0 <= k < |m.task| ensures m.task[k] != '\n' {
      assert m.task[k] == s[m.start + 13 + k];
    }
    assert "second" + "s" == "seconds" && "minute" + "s" == "minutes" && "hour" + "s" == "hours";
  }

  /** Whatever the search reports has well-formed groups. */
  lemma {:induction false} SearchGroupsWellFormed(s: string, from: nat)
    ensures SearchReminder(s, from).Some? ==> WellFormedGroups(SearchReminder(s, from).value)
    decreases |s| - from
  {
    if from + 13 > |s| {
    } else if !OccursAt(s, RemindPrefix, from) {
      SearchGroupsWellFormed(s, from + 1);
    } else {
      LazyTaskShortest(s, from, 1);
      match LazyTask(s, from, 1)
      case Some(len) => GroupsWellFormed(s, MatchGroups(s, from, len));
      case None => SearchGroupsWellFormed(s, from + 1);
    }
  }

  /** `re.search` of the reminder pattern over the whole command. */
  function MatchReminder(cmd: string): Option<ReminderMatch> {
    SearchReminder(cmd, 0)
  }

  /**
   * `re.search` finds nothing exactly when the pattern matches nowhere;
   * otherwise it reports the match with the leftmost start and, there, the
   * shortest task, and its groups are well formed.
   */
  lemma MatchReminderSpec(cmd: string)
    ensures MatchReminder(cmd).None? ==> forall i: nat, l: nat :: !ReminderMatchAt(cmd, i, l)
    ensures MatchReminder(cmd).Some? ==> Describes(cmd, MatchReminder(cmd).value)
    ensures MatchReminder(cmd).Some? ==>
              forall i: nat, l: nat :: ReminderMatchAt(cmd, i, l) ==>
                MatchReminder(cmd).value.start < i
                || (MatchReminder(cmd).value.start == i && |MatchReminder(cmd).value.task| <= l)
    ensures MatchReminder(cmd).Some? ==> WellFormedGroups(MatchReminder(cmd).value)
  {
    SearchReminderSpec(cmd, 0);
    if MatchReminder(cmd).Some? {
      GroupsWellFormed(cmd, MatchReminder(cmd).value);
    }
  }


  /** Python's `int()` of a string of ASCII digits. */
  function DigitsValue(ds: string): (v: nat)
    requires forall k :: 0 <= k < |ds| ==> IsDigit(ds[k])
  {
    if ds == [] then 0
    else
      assert IsDigit(ds[|ds| - 1]);
      DigitsValue(ds[..|ds| - 1]) * 10 + (ds[|ds| - 1] as int - '0' as int)
  }

  /** Leading zeros do not change the value: `int("05") == int("5")`. */
  lemma {:induction false} DigitsValueLeadingZero(ds: string)
    requires forall k :: 0 <= k < |ds| ==> IsDigit(ds[k])
    ensures DigitsValue(['0'] + ds) == DigitsValue(ds)
  {
    var z := ['0'] + ds;
    if ds == [] {
      assert z[..0] == [];
    } else {
      var init := ds[..|ds| - 1];
      assert z[..|z| - 1] == ['0'] + init;
      assert z[|z| - 1] == ds[|ds| - 1];
      DigitsValueLeadingZero(init);
    }
  }

  /** `10` raised to the power `n`. */
  function Pow10(n: nat): (p: nat)
    ensures p >= 1
  {
    if n == 0 then 1 else 10 * Pow10(n - 1)
  }

  /** A string of `n` digits denotes a value below `10^n`. */
  lemma {:induction false} DigitsValueBelow(ds: string)
    requires forall k :: 0 <= k < |ds| ==> IsDigit(ds[k])
    ensures DigitsValue(ds) < Pow10(|ds|)
  {
    if ds != [] {
      var init := ds[..|ds| - 1];
      DigitsValueBelow(init);
      assert IsDigit(ds[|ds| - 1]);
      var d := ds[|ds| - 1] as int - '0' as int;
      assert DigitsValue(ds) == DigitsValue(init) * 10 + d;
      assert Pow10(|ds|) == 10 * Pow10(|init|);
      assert DigitsValue(init) * 10 + 10 <= Pow10(|init|) * 10;
    }
  }

  /** Without a leading zero, a string of `n` digits denotes at least `10^(n-1)`. */
  lemma {:induction false} DigitsValueAtLeast(ds: string)
    requires forall k :: 0 <= k < |ds| ==> IsDigit(ds[k])
    requires |ds| > 0 && ds[0] != '0'
    ensures Pow10(|ds| - 1) <= DigitsValue(ds)
  {
    var init := ds[..|ds| - 1];
    assert IsDigit(ds[|ds| - 1]);
    var d := ds[|ds| - 1] as int - '0' as int;
    assert DigitsValue(ds) == DigitsValue(init) * 10 + d;
    if |ds| == 1 {
      assert init == [];
      assert d >= 1;
    } else {
      assert init[0] == ds[0];
      DigitsValueAtLeast(init);
      assert Pow10(|ds| - 1) == 10 * Pow10(|init| - 1);
      assert Pow10(|init| - 1) * 10 <= DigitsValue(init) * 10;
    }
  }
}
