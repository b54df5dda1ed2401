/**
 * The "open" branch of the command parser: the target is cut out of the
 * utterance, the local application catalogue is scanned in order for the
 * first name the fuzzy matcher scores above the threshold, and otherwise a
 * web address is chosen from the site table or made up from the target.
 */
module Opening {
  import opened Wrappers
  import opened Text

  /** The target of an "open" command: `cmd.replace("open", "").strip()`. */
  function OpenTarget(cmd: string): string {
    Strip(RemoveAll(cmd, "open"))
  }

  /** The target is no longer than the command and neither starts nor ends with whitespace. */
  lemma OpenTargetTrimmed(cmd: string)
    ensures |OpenTarget(cmd)| <= |cmd|
    ensures var t := OpenTarget(cmd); t == [] || (!IsSpace(t[0]) && !IsSpace(t[|t| - 1]))
  {
    StripSpec(RemoveAll(cmd, "open"));
  }

  /** Leading whitespace is cut off by the strip. */
  lemma StripAfterSpace(x: string)
    ensures Strip(" " + x) == Strip(x)
  {
    var s := " " + x;
    assert s[1..] == x;
    assert LeadingSpace(s) == 1 + LeadingSpace(x);
    assert s[LeadingSpace(s)..] == x[LeadingSpace(x)..];
  }

  /** "open <name>" opens `<name>` with the surrounding whitespace trimmed, when the name holds no "open". */
  lemma {:induction false} OpenTargetOfOpenPhrase(x: string)
    requires !Contains(x, "open")
    ensures OpenTarget("open " + x) == Strip(x)
  {
    var s := "open " + x;
    assert OccursAt(s, "open", 0) by {
      assert s[0..4] == "open";
    }
    assert s[4..] == " " + x;
    assert !OccursAt(" " + x, "open", 0) by {
      assert (" " + x)[0] == ' ';
    }
    assert (" " + x)[1..] == x;
    RemoveAllNoOccurrence(x, "open");
    assert RemoveAll(s, "open") == " " + x;
    StripAfterSpace(x);
  }

  /** A similarity score as `fuzz.ratio` returns it. */
  newtype Score = x: int | 0 <= x <= 100

  /** A score strictly above this clears the match. */
  const Threshold: Score := 80

  /** An entry of the local application catalogue: its spoken name and what is launched. */
  datatype App = App(name: string, command: string)

  /** `LOCAL_APPS`, in the order the parser scans it. */
  const LocalApps: seq<App> := [
    App("notepad", "notepad.exe"),
    App("calculator", "calc.exe"),
    App("chrome", "C:\\Program Files\\Google\\Chrome\\Application\\chrome.exe")
  ]

  /** `WEBSITE_MAP`: the sites with a fixed address. */
  const WebsiteMap: map<string, string> := map[
    "youtube" := "https://www.youtube.com",
    "google" := "https://www.google.com",
    "facebook" := "https://www.facebook.com",
    "twitter" := "https://www.twitter.com",
    "github" := "https://www.github.com",
    "stackoverflow" := "https://stackoverflow.com"
  ]

  /** The catalogue entry at index `i` is a match for `site`. */
  predicate Clears(site: string, ratio: (string, string) -> Score, i: nat)
    requires i < |LocalApps|
  {
    ratio(site, LocalApps[i].name) > Threshold
  }

  /** Index of the first catalogue entry at or after `from` that clears the threshold. */
  function FirstApp(site: string, ratio: (string, string) -> Score, from: nat): (r: Option<nat>)
    ensures r.Some? ==> from <= r.value < |LocalApps| && Clears(site, ratio, r.value)
    ensures r.Some? ==> forall j :: from <= j < r.value ==> !Clears(site, ratio, j)
    ensures r.None? ==> forall j :: from <= j < |LocalApps| ==> !Clears(site, ratio, j)
    decreases |LocalApps| - from
  {
    if from >= |LocalApps| then None
    else if Clears(site, ratio, from) then Some(from)
    else FirstApp(site, ratio, from + 1)
  }

  /**
   * The scan `for app in LOCAL_APPS: if fuzz.ratio(site, app) > 80: ...`,
   * which stops at the first entry that clears the threshold.
   */
  method SelectApp(site: string, ratio: (string, string) -> Score) returns (r: Option<nat>)
    ensures r == FirstApp(site, ratio, 0)
    ensures r.Some? ==> r.value < |LocalApps| && Clears(site, ratio, r.value)
    ensures r.Some? ==> forall j :: 0 <= j < r.value ==> !Clears(site, ratio, j)
    ensures r.None? ==> forall j :: 0 <= j < |LocalApps| ==> !Clears(site, ratio, j)
  {
    var i := 0;
    while i < |LocalApps|
      invariant 0 <= i <= |LocalApps|
      invariant FirstApp(site, ratio, 0) == FirstApp(site, ratio, i)
    {
      if ratio(site, LocalApps[i].name) > Threshold {
        return Some(i);
      }
      i := i + 1;
    }
    return None;
  }

  /** The address made up for a site missing from the table: spaces dropped, `www.` and `.com` around it. */
  function MadeUpUrl(site: string): (url: string)
    ensures |url| <= |site| + 16
  {
    "https://www." + RemoveAll(site, " ") + ".com"
  }

  /** The made-up address keeps every character of the site but the spaces, and contains none. */
  lemma MadeUpUrlShape(site: string)
    ensures var w := RemoveAll(site, " ");
            && MadeUpUrl(site) == "https://www." + w + ".com"
            && ' ' !in w
            && forall c :: c != ' ' ==> multiset(w)[c] == multiset(site)[c]
  {
    RemoveAllChar(site, ' ');
  }

  /** `WEBSITE_MAP.get(site.lower(), f"https://www.{site.replace(' ', '')}.com")`. */
  function SiteUrl(site: string): string {
    var key := Lower(site);
    if key in WebsiteMap then WebsiteMap[key] else MadeUpUrl(site)
  }

  /** What the "open" branch does with its target. */
  datatype OpenAction =
    | Launch(app: App)     // start the catalogue entry's program
    | Browse(url: string)  // open the address in the web browser

  /** The action for a target: the first matching application, else the site's address. */
  function Resolve(site: string, ratio: (string, string) -> Score): (a: OpenAction)
  {
    match FirstApp(site, ratio, 0)
    case Some(i) => Launch(LocalApps[i])
    case None => Browse(SiteUrl(site))
  }

  /**
   * An application is launched exactly when some catalogue entry clears the
   * threshold, and it is the first such entry in catalogue order; later
   * entries are never considered, whatever their score.
   */
  lemma ResolveLaunchesFirst(site: string, ratio: (string, string) -> Score)
    ensures Resolve(site, ratio).Launch? <==> exists i :: 0 <= i < |LocalApps| && Clears(site, ratio, i)
    ensures Resolve(site, ratio).Launch? ==>
              exists i :: 0 <= i < |LocalApps| && Clears(site, ratio, i)
                          && Resolve(site, ratio).app == LocalApps[i]
                          && forall j :: 0 <= j < i ==> !Clears(site, ratio, j)
  {
    match FirstApp(site, ratio, 0)
    case Some(i) =>
    case None =>
  }

  /** Without a matching application the address comes from the table, or is made up from the target. */
  lemma ResolveBrowses(site: string, ratio: (string, string) -> Score)
    requires forall i :: 0 <= i < |LocalApps| ==> !Clears(site, ratio, i)
    ensures Lower(site) in WebsiteMap ==> Resolve(site, ratio) == Browse(WebsiteMap[Lower(site)])
    ensures Lower(site) !in WebsiteMap ==> Resolve(site, ratio) == Browse(MadeUpUrl(site))
  {
  }

  /** "youtube" with no application above the threshold opens the table's address. */
  lemma YoutubeOpensTableUrl(ratio: (string, string) -> Score)
    requires forall i :: 0 <= i < |LocalApps| ==> !Clears("youtube", ratio, i)
    ensures Resolve("youtube", ratio) == Browse("https://www.youtube.com")
  {
    assert Lower("youtube") == "youtube";
    ResolveBrowses("youtube", ratio);
  }
}
