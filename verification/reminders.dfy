/**
 * `set_reminder`: the reminders table, to which every reminder is appended
 * with its firing time, and the scheduler's list of armed one-shot jobs,
 * each of which will say "Reminder: <task>" at that time.
 */
module Reminders {

  /** A row of the `reminders` table: `id INTEGER PRIMARY KEY, text TEXT, time DATETIME`. */
  datatype Row = Row(id: int, text: string, time: int)

  /** A one-shot job of the scheduler: when it runs and what it says. */
  datatype Job = Job(runDate: int, message: string)

  /** The job armed for a row: it runs at the row's time and announces its text. */
  function JobFor(row: Row): Job {
    Job(row.time, "Reminder: " + row.text)
  }

  /** A job tells its reminder apart: two rows get the same job only when they share time and text. */
  lemma JobForDeterminesRow(a: Row, b: Row)
    ensures JobFor(a) == JobFor(b) <==> a.time == b.time && a.text == b.text
  {
    if JobFor(a) == JobFor(b) {
      assert JobFor(a).message[10..] == a.text;
      assert JobFor(b).message[10..] == b.text;
    }
  }

  /** Row ids in strictly increasing order, as a rowid table lists its rows. */
  predicate IdsIncreasing(rows: seq<Row>) {
    forall a, b :: 0 <= a < b < |rows| ==> rows[a].id < rows[b].id
  }

  /** The largest id in a non-empty table. */
  function MaxId(rows: seq<Row>): (m: int)
    requires rows != []
    ensures forall k :: 0 <= k < |rows| ==> rows[k].id <= m
    ensures exists k :: 0 <= k < |rows| && rows[k].id == m
  {
    if |rows| == 1 then rows[0].id
    else
      var rest := MaxId(rows[..|rows| - 1]);
      var last := rows[|rows| - 1].id;
      if last >= rest then last else rest
  }

  /**
   * The id SQLite gives a row inserted without one: one more than the largest
   * id in the table, or 1 when the table is empty. It differs from every id
   * already there.
   */
  function NextRowId(rows: seq<Row>): (id: int)
    ensures forall k :: 0 <= k < |rows| ==> rows[k].id < id
    ensures rows == [] ==> id == 1
    ensures rows != [] ==> exists k :: 0 <= k < |rows| && id == rows[k].id + 1
  {
    if rows == [] then 1 else MaxId(rows) + 1
  }

  /** In an id-ordered table the new id follows the last row's. */
  lemma NextRowIdFollowsLast(rows: seq<Row>)
    requires IdsIncreasing(rows) && rows != []
    ensures NextRowId(rows) == rows[|rows| - 1].id + 1
  {
  }

  /** The reminders table and the scheduler's armed jobs. */
  class ReminderStore {
    var rows: seq<Row>
    var jobs: seq<Job>

    /**
     * Ids are unique and ordered, and the armed jobs belong one to one, in
     * order, to the newest rows: those added since the store was opened.
     * Rows already in the table when it was opened are never armed again.
     */
    predicate Valid()
      reads this
    {
      && IdsIncreasing(rows)
      && |jobs| <= |rows|
      && forall k :: 0 <= k < |jobs| ==> jobs[k] == JobFor(rows[|rows| - |jobs| + k])
    }

    /** Opening the store over the rows a previous session left in the table; no job is armed. */
    constructor (existing: seq<Row>)
      requires IdsIncreasing(existing)
      ensures Valid()
      ensures rows == existing && jobs == []
    {
      rows := existing;
      jobs := [];
    }

    /**
     * `set_reminder(task, delay)`: the firing time is `now + delay`; one row
     * with a fresh id is appended and one job is armed for that same time.
     * Nothing already in the table or the scheduler changes.
     */
    method SetReminder(task: string, delay: nat, now: int) returns (fireAt: int)
      requires Valid()
      modifies this
      ensures Valid()
      ensures fireAt == now + delay
      ensures rows == old(rows) + [Row(NextRowId(old(rows)), task, fireAt)]
      ensures jobs == old(jobs) + [Job(fireAt, "Reminder: " + task)]
    {
      fireAt := now + delay;
      var row := Row(NextRowId(rows), task, fireAt);
      rows := rows + [row];
      jobs := jobs + [JobFor(row)];
    }
  }
}
