/**
 * `parse_command` with its effects: the intent is decided by the router, a
 * reminder is stored and armed, and the "open" branch picks what to open by
 * scanning the application catalogue. Speech, the clock, the fuzzy matcher
 * and the network are outside: the clock reading and the matcher are
 * parameters, and the other effects are reported in the returned intent.
 */
module Assistant {
  import opened Wrappers
  import opened Opening
  import opened Reminders
  import opened Router

  /**
   * The effect of an intent: a reminder appends exactly one row and arms
   * exactly one job at `now + delay`, and no other intent touches the store;
   * an "open" intent yields the launch or the address that the catalogue scan
   * and the site table give for its target.
   */
  method Perform(store: ReminderStore, intent: Intent, ratio: (string, string) -> Score, now: int)
    returns (action: Option<OpenAction>)
    requires store.Valid()
    modifies store
    ensures store.Valid()
    ensures intent.Reminder? ==>
              && store.rows == old(store.rows) + [Row(NextRowId(old(store.rows)), intent.task, now + intent.delay)]
              && store.jobs == old(store.jobs) + [Job(now + intent.delay, "Reminder: " + intent.task)]
    ensures !intent.Reminder? ==> store.rows == old(store.rows) && store.jobs == old(store.jobs)
    ensures intent.Open? ==> action == Some(Resolve(intent.target, ratio))
    ensures !intent.Open? ==> action.None?
  {
    action := None;
    match intent {
      case Reminder(task, delay) =>
        var fireAt := store.SetReminder(task, delay, now);
      case Open(target) =>
        var choice := SelectApp(target, ratio);
        match choice {
          case Some(i) => action := Some(Launch(LocalApps[i]));
          case None => action := Some(Browse(SiteUrl(target)));
        }
      case _ =>
    }
  }

  /** One utterance handled: the router decides the intent, which is then performed. */
  method ParseCommand(store: ReminderStore, cmd: string, defaultCity: string,
                      ratio: (string, string) -> Score, now: int)
    returns (intent: Intent, action: Option<OpenAction>)
    requires store.Valid()
    modifies store
    ensures store.Valid()
    ensures intent == Route(cmd, defaultCity)
    ensures intent.Reminder? ==>
              && store.rows == old(store.rows) + [Row(NextRowId(old(store.rows)), intent.task, now + intent.delay)]
              && store.jobs == old(store.jobs) + [Job(now + intent.delay, "Reminder: " + intent.task)]
    ensures !intent.Reminder? ==> store.rows == old(store.rows) && store.jobs == old(store.jobs)
    ensures intent.Open? ==> action == Some(Resolve(intent.target, ratio))
    ensures !intent.Open? ==> action.None?
  {
    intent := Route(cmd, defaultCity);
    action := Perform(store, intent, ratio, now);
  }
}
