/** The daily canary scheduler over its two tables. */
module Canary {
  import opened Text
  import opened Calendar

  // ----- identities -----

  function Pad2(n: nat): string
    requires n < 100
  {
    [DigitChar(n / 10), DigitChar(n % 10)]
  }

  function Pad4(n: nat): string
    requires n < 10000
  {
    Pad2(n / 100) + Pad2(n % 100)
  }

  /** `%Y-%m-%d` */
  function DateText(d: Date): string
  {
    Pad4(d.year) + "-" + Pad2(d.month) + "-" + Pad2(d.day)
  }

  datatype Key = Key(runner: string, profile: string, date: Date)

  function TaskId(k: Key): string
  {
    "canary:" + k.runner + ":" + k.profile + ":" + DateText(k.date)
  }

  lemma DateTextInjective(a: Date, b: Date)
    ensures |DateText(a)| == 10
    ensures DateText(a) == DateText(b) ==> a == b
  {
    var s, t := DateText(a), DateText(b);
    if s == t {
      assert Pad2(a.year / 100) == s[0..2] == Pad2(b.year / 100);
      assert Pad2(a.year % 100) == s[2..4] == Pad2(b.year % 100);
      assert Pad2(a.month) == s[5..7] == Pad2(b.month);
      assert Pad2(a.day) == s[8..10] == Pad2(b.day);
      Pad2Injective(a.year / 100, b.year / 100);
      Pad2Injective(a.year % 100, b.year % 100);
      Pad2Injective(a.month, b.month);
      Pad2Injective(a.day, b.day);
    }
  }

  lemma Pad2Injective(m: nat, n: nat)
    requires m < 100 && n < 100 && Pad2(m) == Pad2(n)
    ensures m == n
  {
    assert Pad2(m)[0] == Pad2(n)[0] && Pad2(m)[1] == Pad2(n)[1];
  }

  lemma SplitEqual(a: string, b: string, c: string, d: string)
    requires a + b == c + d && |b| == |d|
    ensures a == c && b == d
  {
    assert |a| == |c|;
    assert (a + b)[..|a|] == a && (c + d)[..|c|] == c;
    assert (a + b)[|a|..] == b && (c + d)[|c|..] == d;
  }

  lemma PrefixEqual(p: string, a: string, b: string)
    requires p + a == p + b
    ensures a == b
  {
    assert (p + a)[|p|..] == a && (p + b)[|p|..] == b;
  }

  /** Two task IDs coincide exactly when the dates do and runner and profile read the same with a colon between. */
  lemma TaskIdsCoincide(k: Key, l: Key)
    ensures TaskId(k) == TaskId(l) <==>
      k.date == l.date && k.runner + ":" + k.profile == l.runner + ":" + l.profile
  {
    DateTextInjective(k.date, l.date);
    DateTextInjective(l.date, k.date);
    var kn, ln := k.runner + ":" + k.profile, l.runner + ":" + l.profile;
    var kd, ld := ":" + DateText(k.date), ":" + DateText(l.date);
    assert TaskId(k) == "canary:" + (kn + kd);
    assert TaskId(l) == "canary:" + (ln + ld);
    if TaskId(k) == TaskId(l) {
      PrefixEqual("canary:", kn + kd, ln + ld);
      SplitEqual(kn, kd, ln, ld);
      PrefixEqual(":", DateText(k.date), DateText(l.date));
    }
  }

  /** Runner IDs without a colon make task IDs injective. */
  lemma TaskIdInjective(k: Key, l: Key)
    requires ':' !in k.runner && ':' !in l.runner
    requires TaskId(k) == TaskId(l)
    ensures k == l
  {
    TaskIdsCoincide(k, l);
    FirstColon(k.runner, k.profile, l.runner, l.profile);
  }

  lemma {:induction false} FirstColon(a: string, p: string, c: string, q: string)
    requires ':' !in a && ':' !in c && a + ":" + p == c + ":" + q
    ensures a == c && p == q
  {
    var s, t := a + ":" + p, c + ":" + q;
    assert s[0] == (if a == [] then ':' else a[0]) && t[0] == (if c == [] then ':' else c[0]);
    if a == [] {
      assert c == [];
      assert s[1..] == p && t[1..] == q;
    } else {
      assert c != [];
      assert s[1..] == a[1..] + ":" + p && t[1..] == c[1..] + ":" + q;
      FirstColon(a[1..], p, c[1..], q);
    }
  }

  /** With colons in runner IDs two schedule entries can share one task. */
  lemma ColonsCollide(d: Date)
    ensures Key("a:b", "c", d) != Key("a", "b:c", d) && TaskId(Key("a:b", "c", d)) == TaskId(Key("a", "b:c", d))
  {
    assert "a:b" + ":" + "c" == "a" + ":" + "b:c";
    TaskIdsCoincide(Key("a:b", "c", d), Key("a", "b:c", d));
  }

  // ----- tables -----

  datatype RowState = Created | Missed | Expired

  datatype Row = Row(state: RowState, taskId: Option<string>)

  datatype TaskState =
    Queued | Claimed | Accepted | Completed | FailedTask | CancelRequested | Cancelled | PendingApproval

  datatype Database = Database(schedule: map<Key, Row>, tasks: map<string, TaskState>)

  datatype AnyProfile = AnyProfile(id: string, utcHour: int, freshnessHours: int)

  /** What the profile schema lets through. */
  type Profile = p: AnyProfile | 0 <= p.utcHour <= 23 && 1 <= p.freshnessHours <= 24 witness AnyProfile("", 0, 1)

  datatype Action = CreatedTask(key: Key) | ScheduleFixup(key: Key) | MissedDay(key: Key) | ExpiredTask(key: Key)

  function Due(p: Profile, date: Date): int
  {
    DayNumber(date) * DAY + p.utcHour * HOUR
  }

  function Deadline(p: Profile, date: Date): int
  {
    Due(p, date) + p.freshnessHours * HOUR
  }

  function KeyOf(runner: string, p: Profile, date: Date): Key { Key(runner, p.id, date) }

  /** One evaluation, one transaction. */
  function Evaluate(db: Database, runner: string, p: Profile, date: Date, now: int): (Database, Option<Action>)
  {
    var key := KeyOf(runner, p, date);
    var id := TaskId(key);
    if key in db.schedule then
      var row := db.schedule[key];
      if row.state == Created && now >= Deadline(p, date) && row.taskId.Some? && row.taskId.value in db.tasks
         && db.tasks[row.taskId.value] == Queued then
        (Database(db.schedule[key := row.(state := Expired)], db.tasks[row.taskId.value := Cancelled]),
         Some(ExpiredTask(key)))
      else (db, None)
    else if now < Due(p, date) then (db, None)
    else if now >= Deadline(p, date) then
      (db.(schedule := db.schedule[key := Row(Missed, None)]), Some(MissedDay(key)))
    else if id in db.tasks then
      (db.(schedule := db.schedule[key := Row(Created, Some(id))]), Some(ScheduleFixup(key)))
    else
      (Database(db.schedule[key := Row(Created, Some(id))], db.tasks[id := Queued]), Some(CreatedTask(key)))
  }

  datatype Runner = Runner(id: string, canaryProfile: Option<string>)

  /** One transaction of a tick. */
  datatype Transaction = Transaction(runner: string, profile: Profile, date: Date, now: int)

  function RunnerTransactions(r: Runner, profiles: map<string, Profile>, now: Moment): seq<Transaction> {
    if r.canaryProfile == None || r.canaryProfile.value == "" || r.canaryProfile.value !in profiles then []
    else
      [Transaction(r.id, profiles[r.canaryProfile.value], Yesterday(now), Instant(now)),
       Transaction(r.id, profiles[r.canaryProfile.value], Today(now), Instant(now))]
  }

  /** The transactions of a tick: yesterday and today for every listed runner with a known profile. */
  function Transactions(runners: seq<Runner>, profiles: map<string, Profile>, now: Moment): seq<Transaction> {
    if runners == [] then []
    else RunnerTransactions(runners[0], profiles, now) + Transactions(runners[1..], profiles, now)
  }

  /** The database and the reported actions after some transactions. */
  function Replay(db: Database, ts: seq<Transaction>): (Database, seq<Action>)
    decreases |ts|
  {
    if ts == [] then (db, [])
    else
      var (db1, a) := Evaluate(db, ts[0].runner, ts[0].profile, ts[0].date, ts[0].now);
      var (db2, rest) := Replay(db1, ts[1..]);
      (db2, Listed(a) + rest)
  }

  lemma {:induction false} ReplayAppend(db: Database, a: seq<Transaction>, b: seq<Transaction>)
    ensures Replay(db, a + b) == (Replay(Replay(db, a).0, b).0, Replay(db, a).1 + Replay(Replay(db, a).0, b).1)
    decreases |a|
  {
    if a == [] {
      assert a + b == b;
      assert [] + Replay(db, b).1 == Replay(db, b).1;
    } else {
      hide Evaluate;
      assert (a + b)[1..] == a[1..] + b;
      var (db1, x) := Evaluate(db, a[0].runner, a[0].profile, a[0].date, a[0].now);
      ReplayAppend(db1, a[1..], b);
      var tail := Replay(db1, a[1..]);
      assert Listed(x) + (tail.1 + Replay(tail.0, b).1) == (Listed(x) + tail.1) + Replay(tail.0, b).1;
    }
  }

  lemma ReplayNothing(db: Database)
    ensures Replay(db, []) == (db, [])
  {}

  lemma ReplayMore(db: Database, done: seq<Transaction>, t: Transaction)
    ensures var (db1, actions) := Replay(db, done);
      var (db2, a) := Evaluate(db1, t.runner, t.profile, t.date, t.now);
      Replay(db, done + [t]) == (db2, actions + Listed(a))
  {
    ReplayAppend(db, done, [t]);
    ReplayOne(Replay(db, done).0, t);
  }

  lemma ReplayOne(db: Database, t: Transaction)
    ensures Replay(db, [t]) == (Evaluate(db, t.runner, t.profile, t.date, t.now).0,
                               Listed(Evaluate(db, t.runner, t.profile, t.date, t.now).1))
  {
    assert [t][1..] == [];
    var x := Listed(Evaluate(db, t.runner, t.profile, t.date, t.now).1);
    assert x + [] == x;
  }

  function Listed(a: Option<Action>): seq<Action> { if a.Some? then [a.value] else [] }

  class CanaryScheduler {
    var db: Database
    const profiles: map<string, Profile>

    constructor (db0: Database, known: map<string, Profile>)
      ensures db == db0 && profiles == known
    {
      db, profiles := db0, known;
    }

    /** One tick is its transactions, one after the other, and reports exactly their actions. */
    method Tick(runners: seq<Runner>, now: Moment) returns (actions: seq<Action>)
      modifies this`db
      ensures (db, actions) == Replay(old(db), Transactions(runners, profiles, now))
    {
      hide Evaluate, Replay, RunnerTransactions;
      actions := [];
      ghost var done: seq<Transaction> := [];
      ReplayNothing(db);
      assert runners[0..] == runners;
      for i := 0 to |runners|
        invariant Replay(old(db), done) == (db, actions)
        invariant done + Transactions(runners[i..], profiles, now) == Transactions(runners, profiles, now)
      {
        assert runners[i..][1..] == runners[i + 1..];
        ghost var ts := RunnerTransactions(runners[i], profiles, now);
        var more := TickRunner(runners[i], now);
        ReplayAppend(old(db), done, ts);
        done := done + ts;
        actions := actions + more;
      }
      assert runners[|runners|..] == [];
      assert done + [] == done;
      assert done == Transactions(runners, profiles, now);
    }

    method TickRunner(r: Runner, now: Moment) returns (actions: seq<Action>)
      modifies this`db
      ensures (db, actions) == Replay(old(db), RunnerTransactions(r, profiles, now))
    {
      hide Evaluate, Replay, Today, Yesterday;
      var today, yesterday := Today(now), Yesterday(now);
      ReplayNothing(db);
      if r.canaryProfile == None || r.canaryProfile.value == "" { return []; }
      if r.canaryProfile.value !in profiles { return []; }
      var p := profiles[r.canaryProfile.value];
      ghost var first, second :=
        Transaction(r.id, p, yesterday, Instant(now)), Transaction(r.id, p, today, Instant(now));
      var a1 := EvaluateRunner(r.id, p, yesterday, Instant(now));
      ReplayOne(old(db), first);
      var a2 := EvaluateRunner(r.id, p, today, Instant(now));
      ReplayMore(old(db), [first], second);
      assert [first] + [second] == [first, second];
      return Listed(a1) + Listed(a2);
    }

    method EvaluateRunner(runner: string, p: Profile, date: Date, now: int) returns (action: Option<Action>)
      modifies this`db
      ensures (db, action) == Evaluate(old(db), runner, p, date, now)
    {
      var key := KeyOf(runner, p, date);
      if key in db.schedule {
        var row := db.schedule[key];
        if row.state == Created && now >= Deadline(p, date) && row.taskId.Some? && row.taskId.value in db.tasks {
          if db.tasks[row.taskId.value] == Queued {
            action := MarkExpired(key, row.taskId.value);
            return;
          }
        }
        return None;
      }
      if now < Due(p, date) { return None; }
      if now >= Deadline(p, date) {
        action := MarkMissed(key);
      } else {
        action := CreateCanary(key);
      }
    }

    method MarkExpired(key: Key, taskId: string) returns (action: Option<Action>)
      requires key in db.schedule && taskId in db.tasks && db.tasks[taskId] == Queued
      modifies this`db
      ensures action == Some(ExpiredTask(key))
      ensures db == Database(
                      old(db).schedule[key := old(db).schedule[key].(state := Expired)],
                      old(db).tasks[taskId := Cancelled])
    {
      db := db.(tasks := db.tasks[taskId := Cancelled]);
      db := db.(schedule := db.schedule[key := db.schedule[key].(state := Expired)]);
      return Some(ExpiredTask(key));
    }

    method MarkMissed(key: Key) returns (action: Option<Action>)
      requires key !in db.schedule
      modifies this`db
      ensures action == Some(MissedDay(key)) && db == old(db).(schedule := old(db).schedule[key := Row(Missed, None)])
    {
      db := db.(schedule := db.schedule[key := Row(Missed, None)]);
      return Some(MissedDay(key));
    }

    method CreateCanary(key: Key) returns (action: Option<Action>)
      requires key !in db.schedule
      modifies this`db
      ensures db.schedule == old(db).schedule[key := Row(Created, Some(TaskId(key)))]
      ensures if TaskId(key) in old(db).tasks
        then action == Some(ScheduleFixup(key)) && db.tasks == old(db).tasks
        else action == Some(CreatedTask(key)) && db.tasks == old(db).tasks[TaskId(key) := Queued]
    {
      var id := TaskId(key);
      var known := id in db.tasks;
      db := db.(schedule := db.schedule[key := Row(Created, Some(id))]);
      if known { return Some(ScheduleFixup(key)); }
      db := db.(tasks := db.tasks[id := Queued]);
      return Some(CreatedTask(key));
    }
  }

  // ----- histories -----

  /** One transaction of some tick, or anything the rest of the control service does to tasks: submit new ones and
      move known ones between states, but never delete one. */
  datatype Event =
    | Evaluation(runner: string, profile: Profile, date: Date, now: int)
    | Elsewhere(tasks: map<string, TaskState>)

  ghost predicate Follows(db: Database, e: Event, db': Database, action: Option<Action>)
  {
    match e
    case Evaluation(runner, p, date, now) => (db', action) == Evaluate(db, runner, p, date, now)
    case Elsewhere(tasks) => db' == db.(tasks := tasks) && db.tasks.Keys <= tasks.Keys && action == None
  }

  datatype History = History(dbs: seq<Database>, events: seq<Event>, actions: seq<Option<Action>>)

  ghost predicate IsHistory(h: History) {
    && |h.dbs| == |h.events| + 1 && |h.actions| == |h.events|
    && h.dbs[0].schedule == map[]
    && forall i :: 0 <= i < |h.events| ==> Follows(h.dbs[i], h.events[i], h.dbs[i + 1], h.actions[i])
  }

  ghost predicate TablesAgree(db: Database) {
    forall k :: k in db.schedule ==>
      var row := db.schedule[k];
      && (row.state == Missed ==> row.taskId == None)
      && (row.state != Missed ==> row.taskId == Some(TaskId(k)) && TaskId(k) in db.tasks)
  }

  lemma StepKeepsTables(db: Database, e: Event, db': Database, action: Option<Action>)
    requires TablesAgree(db) && Follows(db, e, db', action)
    ensures TablesAgree(db')
    ensures forall k :: k in db.schedule ==>
      k in db'.schedule && (db.schedule[k].state == Missed ==> db'.schedule[k] == db.schedule[k])
  {
    hide TaskId, Due, Deadline;
  }

  /** Created and expired rows always name an existing task, the one of their key; missed rows name none. */
  lemma {:induction false} RowsMatchTasks(h: History, i: nat)
    requires IsHistory(h) && i < |h.dbs|
    ensures TablesAgree(h.dbs[i])
  {
    if i > 0 {
      RowsMatchTasks(h, i - 1);
      StepKeepsTables(h.dbs[i - 1], h.events[i - 1], h.dbs[i], h.actions[i - 1]);
    }
  }

  lemma {:induction false} RowsStay(h: History, i: nat, j: nat, k: Key)
    requires IsHistory(h) && i <= j < |h.dbs| && k in h.dbs[i].schedule
    ensures k in h.dbs[j].schedule
    ensures h.dbs[i].schedule[k].state == Missed ==> h.dbs[j].schedule[k].state == Missed
    decreases j
  {
    hide Evaluate, TablesAgree, TaskId;
    if i < j {
      RowsStay(h, i, j - 1, k);
      RowsMatchTasks(h, j - 1);
      StepKeepsTables(h.dbs[j - 1], h.events[j - 1], h.dbs[j], h.actions[j - 1]);
    }
  }

  /** A created canary was due and not past its deadline, had no schedule row, so no missed record, and no task. */
  lemma CreatedInWindow(h: History, i: nat, k: Key)
    requires IsHistory(h) && i < |h.events| && h.actions[i] == Some(CreatedTask(k))
    ensures h.events[i].Evaluation? && k == KeyOf(h.events[i].runner, h.events[i].profile, h.events[i].date)
    ensures Due(h.events[i].profile, k.date) <= h.events[i].now < Deadline(h.events[i].profile, k.date)
    ensures forall j :: 0 <= j <= i ==> k !in h.dbs[j].schedule
    ensures TaskId(k) !in h.dbs[i].tasks && TaskId(k) in h.dbs[i + 1].tasks
  {
    assert Follows(h.dbs[i], h.events[i], h.dbs[i + 1], h.actions[i]);
    forall j | 0 <= j <= i ensures k !in h.dbs[j].schedule {
      if k in h.dbs[j].schedule { RowsStay(h, j, i, k); }
    }
  }

  /** However ticks and other transactions interleave, a (runner, profile, date) gets at most one task. */
  lemma AtMostOneTaskPerDay(h: History, i: nat, j: nat, k: Key)
    requires IsHistory(h) && i < |h.events| && j < |h.events|
    requires h.actions[i] == Some(CreatedTask(k)) && h.actions[j] == Some(CreatedTask(k))
    ensures i == j
  {
    CreatedInWindow(h, i, k);
    CreatedInWindow(h, j, k);
    assert Follows(h.dbs[i], h.events[i], h.dbs[i + 1], h.actions[i]);
    assert Follows(h.dbs[j], h.events[j], h.dbs[j + 1], h.actions[j]);
    assert k in h.dbs[i + 1].schedule && k in h.dbs[j + 1].schedule;
    assert !(i < j) && !(j < i);
  }

  /** After a missed record, nothing is ever created for that day, and it stays missed. */
  lemma MissedIsFinal(h: History, i: nat, j: nat, k: Key)
    requires IsHistory(h) && i < |h.dbs| && i <= j < |h.events|
    requires k in h.dbs[i].schedule && h.dbs[i].schedule[k].state == Missed
    ensures h.actions[j] != Some(CreatedTask(k)) && h.actions[j] != Some(ScheduleFixup(k))
      && h.actions[j] != Some(ExpiredTask(k))
    ensures k in h.dbs[j + 1].schedule && h.dbs[j + 1].schedule[k].state == Missed
  {
    RowsStay(h, i, j, k);
    RowsStay(h, i, j + 1, k);
    assert Follows(h.dbs[j], h.events[j], h.dbs[j + 1], h.actions[j]);
  }

  /** The scheduler touches a task only to queue a new one or to cancel one that is still queued past its deadline. */
  lemma OnlyQueuedTasksAreCancelled(h: History, i: nat, id: string)
    requires IsHistory(h) && i < |h.events| && h.events[i].Evaluation?
    requires id in h.dbs[i + 1].tasks && (id in h.dbs[i].tasks ==> h.dbs[i + 1].tasks[id] != h.dbs[i].tasks[id])
    ensures id in h.dbs[i].tasks ==>
      h.dbs[i].tasks[id] == Queued && h.dbs[i + 1].tasks[id] == Cancelled
      && h.events[i].now >= Deadline(h.events[i].profile, h.events[i].date)
      && exists k ::
           h.actions[i] == Some(ExpiredTask(k)) && h.dbs[i].schedule[k] == Row(Created, Some(id)) && id == TaskId(k)
    ensures id !in h.dbs[i].tasks ==>
      h.dbs[i + 1].tasks[id] == Queued && exists k :: h.actions[i] == Some(CreatedTask(k)) && id == TaskId(k)
  {
    hide TaskId, Due, Deadline;
    RowsMatchTasks(h, i);
    var e := h.events[i];
    var k := KeyOf(e.runner, e.profile, e.date);
    assert Follows(h.dbs[i], e, h.dbs[i + 1], h.actions[i]);
    assert h.actions[i] == Some(CreatedTask(k)) || h.actions[i] == Some(ExpiredTask(k));
  }

  // ----- what a look does, for each state of the tables -----

  /** A look at a day without a row creates one exactly from its due time on: a task with it inside the window, none
      after the deadline. */
  lemma FreshDayExactly(db: Database, runner: string, p: Profile, date: Date, now: int)
    requires KeyOf(runner, p, date) !in db.schedule
    ensures var k := KeyOf(runner, p, date); var (db', action) := Evaluate(db, runner, p, date, now);
      var due := DayNumber(date) * DAY + p.utcHour * HOUR;
      var deadline := due + p.freshnessHours * HOUR;
      && (k in db'.schedule <==> due <= now)
      && (now < due ==> db' == db && action == None)
      && (due <= now < deadline ==>
            && db'.schedule[k] == Row(Created, Some(TaskId(k))) && TaskId(k) in db'.tasks
            && (if TaskId(k) in db.tasks then db'.tasks == db.tasks && action == Some(ScheduleFixup(k))
                else db'.tasks[TaskId(k)] == Queued && action == Some(CreatedTask(k))))
      && (deadline <= now ==>
            db'.schedule[k] == Row(Missed, None) && db'.tasks == db.tasks && action == Some(MissedDay(k)))
  {
    DueComesFirst(p, date);
    WindowOf(p, date);
    hide TaskId, Due, Deadline, DayNumber;
  }

  lemma WindowOf(p: Profile, date: Date)
    ensures Due(p, date) == DayNumber(date) * DAY + p.utcHour * HOUR
    ensures Deadline(p, date) == Due(p, date) + p.freshnessHours * HOUR
  {}

  /** A look at a day with a row changes something exactly when the row is a created one, the deadline has passed and
      its task is still queued. */
  lemma KnownDayExactly(db: Database, runner: string, p: Profile, date: Date, now: int)
    requires KeyOf(runner, p, date) in db.schedule
    ensures var k := KeyOf(runner, p, date); var (db', action) := Evaluate(db, runner, p, date, now);
      var row := db.schedule[k];
      var overdue := row.state == Created && row.taskId.Some?
        && row.taskId.value in db.tasks && db.tasks[row.taskId.value] == Queued
        && DayNumber(date) * DAY + (p.utcHour + p.freshnessHours) * HOUR <= now;
      && (action == None <==> !overdue) && (action == None ==> db' == db)
      && (overdue ==> db'.schedule[k] == Row(Expired, row.taskId) && db'.tasks[row.taskId.value] == Cancelled
                      && action == Some(ExpiredTask(k)))
  {
    WindowOf(p, date);
    hide DayNumber, TaskId, Due, Deadline;
  }

  // ----- whole ticks -----

  /** There is a row, and no task of the day is left waiting in the queue. */
  ghost predicate SettledDay(db: Database, k: Key) {
    k in db.schedule
    && (db.schedule[k].state == Created ==> TaskId(k) in db.tasks && db.tasks[TaskId(k)] != Queued)
  }

  lemma DueComesFirst(p: Profile, date: Date)
    ensures Due(p, date) < Deadline(p, date)
  {}

  /** A look at a day past its deadline settles it. */
  lemma LookSettles(db: Database, runner: string, p: Profile, date: Date, now: int)
    requires TablesAgree(db) && now >= Deadline(p, date)
    ensures SettledDay(Evaluate(db, runner, p, date, now).0, KeyOf(runner, p, date))
  {
    DueComesFirst(p, date);
    hide TaskId, Due, Deadline;
  }

  /** In the course of any history. */
  lemma PastDeadlineIsSettled(h: History, i: nat, k: Key)
    requires IsHistory(h) && i < |h.events| && h.events[i].Evaluation?
    requires k == KeyOf(h.events[i].runner, h.events[i].profile, h.events[i].date)
    requires h.events[i].now >= Deadline(h.events[i].profile, h.events[i].date)
    ensures SettledDay(h.dbs[i + 1], k)
  {
    hide Evaluate, TaskId, SettledDay, Deadline;
    RowsMatchTasks(h, i);
    var e := h.events[i];
    LookSettles(h.dbs[i], e.runner, e.profile, e.date, e.now);
    assert Follows(h.dbs[i], e, h.dbs[i + 1], h.actions[i]);
  }

  /** Looks at other days, or at the same one again, leave it settled. */
  lemma LookKeepsSettled(db: Database, t: Transaction, k: Key)
    requires TablesAgree(db)
    ensures TablesAgree(Evaluate(db, t.runner, t.profile, t.date, t.now).0)
    ensures SettledDay(db, k) ==> SettledDay(Evaluate(db, t.runner, t.profile, t.date, t.now).0, k)
  {
    hide TaskId, Due, Deadline;
  }

  lemma {:induction false} ReplaySettles(db: Database, ts: seq<Transaction>, k: Key)
    requires TablesAgree(db)
    requires SettledDay(db, k)
      || exists t :: t in ts && k == KeyOf(t.runner, t.profile, t.date) && t.now >= Deadline(t.profile, t.date)
    ensures SettledDay(Replay(db, ts).0, k)
    decreases |ts|
  {
    hide Evaluate, SettledDay, Deadline, TaskId;
    if ts != [] {
      var t, rest := ts[0], ts[1..];
      LookKeepsSettled(db, t, k);
      var db1 := Evaluate(db, t.runner, t.profile, t.date, t.now).0;
      if k == KeyOf(t.runner, t.profile, t.date) && t.now >= Deadline(t.profile, t.date) {
        LookSettles(db, t.runner, t.profile, t.date, t.now);
      } else if !SettledDay(db, k) {
        var u :| u in ts && k == KeyOf(u.runner, u.profile, u.date) && u.now >= Deadline(u.profile, u.date);
        assert u in rest;
      }
      ReplaySettles(db1, rest, k);
    }
  }

  lemma {:induction false} TickLooksAt(runners: seq<Runner>, profiles: map<string, Profile>, now: Moment, r: Runner,
                                       t: Transaction)
    requires r in runners && t in RunnerTransactions(r, profiles, now)
    ensures t in Transactions(runners, profiles, now)
  {
    hide RunnerTransactions;
    if r != runners[0] { TickLooksAt(runners[1..], profiles, now, r, t); }
  }

  /** Every day is settled by any one tick between its deadline and the end of the next day, for every listed runner
      with a known profile. */
  lemma TickSettlesDay(db: Database, runners: seq<Runner>, profiles: map<string, Profile>, now: Moment, r: Runner,
                       date: Date)
    requires TablesAgree(db) && r in runners
    requires r.canaryProfile.Some? && r.canaryProfile.value != "" && r.canaryProfile.value in profiles
    requires Deadline(profiles[r.canaryProfile.value], date) <= Instant(now) < (DayNumber(date) + 2) * DAY
    ensures var k := KeyOf(r.id, profiles[r.canaryProfile.value], date);
      SettledDay(Replay(db, Transactions(runners, profiles, now)).0, k)
  {
    var p := profiles[r.canaryProfile.value];
    var t := Transaction(r.id, p, date, Instant(now));
    RunnerLooksAt(profiles, now, r, date);
    hide Replay, Transactions, RunnerTransactions, SettledDay, TablesAgree, Deadline, Instant, DayNumber;
    TickLooksAt(runners, profiles, now, r, t);
    ReplaySettles(db, Transactions(runners, profiles, now), KeyOf(r.id, p, date));
  }

  lemma RunnerLooksAt(profiles: map<string, Profile>, now: Moment, r: Runner, date: Date)
    requires r.canaryProfile.Some? && r.canaryProfile.value != "" && r.canaryProfile.value in profiles
    requires Deadline(profiles[r.canaryProfile.value], date) <= Instant(now) < (DayNumber(date) + 2) * DAY
    ensures var t := Transaction(r.id, profiles[r.canaryProfile.value], date, Instant(now));
      t in RunnerTransactions(r, profiles, now)
  {
    DaysOf(now, date);
    DeadlineLeavesAnHour(profiles[r.canaryProfile.value], date);
    hide Today, Yesterday, DayNumber, Deadline, Instant;
  }

  lemma LookKeepsRows(db: Database, t: Transaction, k: Key)
    requires TablesAgree(db)
    ensures TablesAgree(Evaluate(db, t.runner, t.profile, t.date, t.now).0)
    ensures k in db.schedule ==> k in Evaluate(db, t.runner, t.profile, t.date, t.now).0.schedule
  {
    hide TaskId, Due, Deadline;
  }

  /** Once due and looked at, a day has a row. */
  lemma {:induction false} ReplayRecords(db: Database, ts: seq<Transaction>, k: Key)
    requires TablesAgree(db)
    requires k in db.schedule
      || exists t :: t in ts && k == KeyOf(t.runner, t.profile, t.date) && t.now >= Due(t.profile, t.date)
    ensures k in Replay(db, ts).0.schedule
    decreases |ts|
  {
    hide Evaluate, Due, Deadline, TaskId, TablesAgree;
    if ts != [] {
      var t, rest := ts[0], ts[1..];
      LookKeepsRows(db, t, k);
      if k !in db.schedule {
        if k == KeyOf(t.runner, t.profile, t.date) && t.now >= Due(t.profile, t.date) {
          WindowOf(t.profile, t.date);
          FreshDayExactly(db, t.runner, t.profile, t.date, t.now);
        } else {
          var u :| u in ts && k == KeyOf(u.runner, u.profile, u.date) && u.now >= Due(u.profile, u.date);
          assert u in rest;
        }
      }
      ReplayRecords(Evaluate(db, t.runner, t.profile, t.date, t.now).0, rest, k);
    }
  }

  lemma WindowLooksAt(profiles: map<string, Profile>, now: Moment, r: Runner, date: Date)
    requires r.canaryProfile.Some? && r.canaryProfile.value != "" && r.canaryProfile.value in profiles
    requires Due(profiles[r.canaryProfile.value], date) <= Instant(now) < (DayNumber(date) + 2) * DAY
    ensures var t := Transaction(r.id, profiles[r.canaryProfile.value], date, Instant(now));
      t in RunnerTransactions(r, profiles, now)
  {
    DaysOf(now, date);
    hide Today, Yesterday, DayNumber, Instant;
  }

  /** Any one tick between a day's due time and the end of the next day leaves it with a row, for every listed runner
      with a known profile. */
  lemma TickRecordsDay(db: Database, runners: seq<Runner>, profiles: map<string, Profile>, now: Moment, r: Runner,
                       date: Date)
    requires TablesAgree(db) && r in runners
    requires r.canaryProfile.Some? && r.canaryProfile.value != "" && r.canaryProfile.value in profiles
    requires Due(profiles[r.canaryProfile.value], date) <= Instant(now) < (DayNumber(date) + 2) * DAY
    ensures var k := KeyOf(r.id, profiles[r.canaryProfile.value], date);
      k in Replay(db, Transactions(runners, profiles, now)).0.schedule
  {
    var p := profiles[r.canaryProfile.value];
    var t := Transaction(r.id, p, date, Instant(now));
    WindowLooksAt(profiles, now, r, date);
    hide Replay, Transactions, RunnerTransactions, TablesAgree, Due, Instant, DayNumber;
    TickLooksAt(runners, profiles, now, r, t);
    ReplayRecords(db, Transactions(runners, profiles, now), KeyOf(r.id, p, date));
  }

  ghost predicate HasCanary(db: Database, k: Key) {
    k in db.schedule && db.schedule[k] == Row(Created, Some(TaskId(k))) && TaskId(k) in db.tasks
  }

  /** A look at another day, or once more inside the window, leaves the canary. */
  lemma LookKeepsCanary(db: Database, t: Transaction, k: Key)
    requires k == KeyOf(t.runner, t.profile, t.date) ==> t.now < Deadline(t.profile, t.date)
    ensures HasCanary(db, k) ==> HasCanary(Evaluate(db, t.runner, t.profile, t.date, t.now).0, k)
    ensures k != KeyOf(t.runner, t.profile, t.date) && k !in db.schedule ==>
      k !in Evaluate(db, t.runner, t.profile, t.date, t.now).0.schedule
  {
    hide TaskId, Due, Deadline;
  }

  lemma {:induction false} ReplayCreates(db: Database, ts: seq<Transaction>, k: Key, t: Transaction)
    requires k == KeyOf(t.runner, t.profile, t.date) && Due(t.profile, t.date) <= t.now < Deadline(t.profile, t.date)
    requires forall u :: u in ts && k == KeyOf(u.runner, u.profile, u.date) ==> u == t
    requires HasCanary(db, k) || (k !in db.schedule && t in ts)
    ensures HasCanary(Replay(db, ts).0, k)
    decreases |ts|
  {
    hide Evaluate, Due, Deadline, TaskId, HasCanary;
    if ts != [] {
      var u := ts[0];
      LookKeepsCanary(db, u, k);
      if u == t && k !in db.schedule { FreshLookCreates(db, t, k); }
      ReplayCreates(Evaluate(db, u.runner, u.profile, u.date, u.now).0, ts[1..], k, t);
    }
  }

  lemma FreshLookCreates(db: Database, t: Transaction, k: Key)
    requires k == KeyOf(t.runner, t.profile, t.date) && Due(t.profile, t.date) <= t.now < Deadline(t.profile, t.date)
    requires k !in db.schedule
    ensures HasCanary(Evaluate(db, t.runner, t.profile, t.date, t.now).0, k)
  {
    FreshDayExactly(db, t.runner, t.profile, t.date, t.now);
    hide Evaluate, Due, Deadline, TaskId;
  }

  lemma {:induction false} TickLooks(runners: seq<Runner>, profiles: map<string, Profile>, now: Moment, t: Transaction)
    requires t in Transactions(runners, profiles, now)
    ensures t.now == Instant(now) && exists name :: name in profiles && profiles[name] == t.profile
  {
    hide Today, Yesterday;
    if t in Transactions(runners[1..], profiles, now) {
      TickLooks(runners[1..], profiles, now, t);
    } else {
      assert t in RunnerTransactions(runners[0], profiles, now);
    }
  }

  /** Any one tick inside the window of a day without a row leaves it with a canary and its task, for every listed
      runner with a known profile. */
  lemma TickCreatesInWindow(db: Database, runners: seq<Runner>, profiles: map<string, Profile>, now: Moment, r: Runner,
                            date: Date)
    requires r in runners && forall name :: name in profiles ==> profiles[name].id == name
    requires r.canaryProfile.Some? && r.canaryProfile.value != "" && r.canaryProfile.value in profiles
    requires var p := profiles[r.canaryProfile.value];
      Due(p, date) <= Instant(now) < Deadline(p, date) && KeyOf(r.id, p, date) !in db.schedule
    ensures var k := KeyOf(r.id, profiles[r.canaryProfile.value], date);
      HasCanary(Replay(db, Transactions(runners, profiles, now)).0, k)
  {
    var p := profiles[r.canaryProfile.value];
    var k, t := KeyOf(r.id, p, date), Transaction(r.id, p, date, Instant(now));
    DeadlineLeavesAnHour(p, date);
    WindowLooksAt(profiles, now, r, date);
    hide Replay, Transactions, RunnerTransactions, HasCanary, Due, Deadline, Instant, DayNumber;
    TickLooksAt(runners, profiles, now, r, t);
    forall u | u in Transactions(runners, profiles, now) && k == KeyOf(u.runner, u.profile, u.date) ensures u == t {
      TickLooks(runners, profiles, now, u);
    }
    ReplayCreates(db, Transactions(runners, profiles, now), k, t);
  }

  /** There is always such a time: at least the last hour of the next day. */
  lemma DeadlineLeavesAnHour(p: Profile, date: Date)
    ensures DayNumber(date) * DAY < Deadline(p, date) <= (DayNumber(date) + 2) * DAY - HOUR
  {
    hide DayNumber;
  }

  /** Neither the row of the day nor its task changes, nor does either appear. */
  ghost predicate Untouched(db: Database, db': Database, k: Key) {
    && (k in db'.schedule <==> k in db.schedule) && (k in db.schedule ==> db'.schedule[k] == db.schedule[k])
    && (TaskId(k) in db'.tasks <==> TaskId(k) in db.tasks)
    && (TaskId(k) in db.tasks ==> db'.tasks[TaskId(k)] == db.tasks[TaskId(k)])
  }

  lemma LookTouchesItsDay(db: Database, t: Transaction, k: Key)
    requires TablesAgree(db) && k.date != t.date
    ensures var (db', a) := Evaluate(db, t.runner, t.profile, t.date, t.now);
      Untouched(db, db', k) && (a.Some? ==> a.value.key != k)
  {
    TaskIdsCoincide(KeyOf(t.runner, t.profile, t.date), k);
    hide TaskId, Due, Deadline;
  }

  lemma {:induction false} ReplayTouchesItsDays(db: Database, ts: seq<Transaction>, k: Key)
    requires TablesAgree(db) && forall t :: t in ts ==> t.date != k.date
    ensures var (db', actions) := Replay(db, ts); Untouched(db, db', k) && forall a :: a in actions ==> a.key != k
    decreases |ts|
  {
    hide Evaluate, TaskId;
    if ts != [] {
      LookTouchesItsDay(db, ts[0], k);
      LookKeepsSettled(db, ts[0], k);
      ReplayTouchesItsDays(Evaluate(db, ts[0].runner, ts[0].profile, ts[0].date, ts[0].now).0, ts[1..], k);
    }
  }

  lemma {:induction false} TickDates(runners: seq<Runner>, profiles: map<string, Profile>, now: Moment, t: Transaction)
    requires t in Transactions(runners, profiles, now)
    ensures t.date == Today(now) || t.date == Yesterday(now)
  {
    hide Today, Yesterday;
    if t in Transactions(runners[1..], profiles, now) {
      TickDates(runners[1..], profiles, now, t);
    } else {
      assert t in RunnerTransactions(runners[0], profiles, now);
    }
  }

  /** No day is touched before it begins or after the one that follows it. */
  lemma TickTouchesTwoDays(db: Database, runners: seq<Runner>, profiles: map<string, Profile>, now: Moment, k: Key)
    requires TablesAgree(db)
    requires Instant(now) < DayNumber(k.date) * DAY || (DayNumber(k.date) + 2) * DAY <= Instant(now)
    ensures var (db', actions) := Replay(db, Transactions(runners, profiles, now));
      Untouched(db, db', k) && forall a :: a in actions ==> a.key != k
  {
    hide Replay, Transactions, Untouched, TablesAgree;
    DaysOf(now, k.date);
    hide Today, Yesterday, DayNumber;
    forall t | t in Transactions(runners, profiles, now) ensures t.date != k.date {
      TickDates(runners, profiles, now, t);
    }
    ReplayTouchesItsDays(db, Transactions(runners, profiles, now), k);
  }
}
