/** The interval scheduler, which hands due tasks to the job queue in registration order. */
module Scheduler {
  import opened Prelude

  /** `last_run` is stored as text, which `Timestamps.IsoRoundTrip` shows to be lossless, so it is an instant. */
  datatype Task = Task(name: string, jobType: string, intervalSeconds: int, priority: int, enabled: bool,
                       lastRun: Option<int>, runCount: nat)

  predicate Due(task: Task, now: int) {
    task.enabled && (task.lastRun.Some? ==> task.lastRun.value + task.intervalSeconds * SECOND <= now)
  }

  function Ran(task: Task, now: int): Task {
    task.(lastRun := Some(now), runCount := task.runCount + 1)
  }

  /**
   One pass. `failing` are the tasks whose enqueue raises; the exception ends the pass there. The
   second result is the names handed to the queue.
   */
  function Pass(tasks: seq<Task>, now: int, failing: set<string>): (seq<Task>, seq<string>) {
    if tasks == [] then ([], [])
    else if !Due(tasks[0], now) then
      var (rest, names) := Pass(tasks[1..], now, failing);
      ([tasks[0]] + rest, names)
    else if tasks[0].name in failing then (tasks, [])
    else
      var (rest, names) := Pass(tasks[1..], now, failing);
      ([Ran(tasks[0], now)] + rest, [tasks[0].name] + names)
  }

  /** `_tasks[name] = task`: an existing name keeps its place. */
  function Put(tasks: seq<Task>, task: Task): seq<Task> {
    if tasks == [] then [task]
    else if tasks[0].name == task.name then [task] + tasks[1..]
    else [tasks[0]] + Put(tasks[1..], task)
  }

  function Remove(tasks: seq<Task>, name: string): seq<Task> {
    if tasks == [] then []
    else if tasks[0].name == name then tasks[1..]
    else [tasks[0]] + Remove(tasks[1..], name)
  }

  function SetEnabled(tasks: seq<Task>, name: string, enabled: bool): seq<Task> {
    if tasks == [] then []
    else if tasks[0].name == name then [tasks[0].(enabled := enabled)] + tasks[1..]
    else [tasks[0]] + SetEnabled(tasks[1..], name, enabled)
  }

  predicate Registered(tasks: seq<Task>, name: string) {
    exists i :: 0 <= i < |tasks| && tasks[i].name == name
  }

  function NewTask(name: string, jobType: string, intervalSeconds: int, priority: int): Task {
    Task(name, jobType, intervalSeconds, priority, true, None, 0)
  }

  ghost predicate UniqueNames(tasks: seq<Task>) {
    forall i, j :: 0 <= i < j < |tasks| ==> tasks[i].name != tasks[j].name
  }

  /** The pass over `all` has dealt with the first `i` tasks. */
  ghost predicate Reached(all: seq<Task>, tasks: seq<Task>, names: seq<string>, i: nat, now: int, failing: set<string>) {
    && i <= |tasks| == |all| && tasks[i..] == all[i..]
    && Pass(all, now, failing).0 == tasks[..i] + Pass(all[i..], now, failing).0
    && Pass(all, now, failing).1 == names + Pass(all[i..], now, failing).1
  }

  lemma ReachedSkip(all: seq<Task>, tasks: seq<Task>, names: seq<string>, i: nat, now: int, failing: set<string>)
    requires Reached(all, tasks, names, i, now, failing) && i < |all| && !Due(tasks[i], now)
    ensures Reached(all, tasks, names, i + 1, now, failing)
  {
    PassAt(all, i, now, failing);
    assert tasks[i] == tasks[i..][0] == all[i];
    assert tasks[i + 1..] == tasks[i..][1..] && all[i + 1..] == all[i..][1..];
    assert tasks[..i + 1] == tasks[..i] + [tasks[i]];
  }

  lemma ReachedFailure(all: seq<Task>, tasks: seq<Task>, names: seq<string>, i: nat, now: int, failing: set<string>)
    requires Reached(all, tasks, names, i, now, failing) && i < |all|
    requires Due(tasks[i], now) && tasks[i].name in failing
    ensures Pass(all, now, failing) == (tasks, names)
  {
    PassAt(all, i, now, failing);
    assert tasks[i] == tasks[i..][0] == all[i];
    assert tasks == tasks[..i] + tasks[i..] && names + [] == names;
  }

  lemma ReachedRun(all: seq<Task>, tasks: seq<Task>, names: seq<string>, i: nat, now: int, failing: set<string>)
    requires Reached(all, tasks, names, i, now, failing) && i < |all|
    requires Due(tasks[i], now) && tasks[i].name !in failing
    ensures Reached(all, tasks[i := Ran(tasks[i], now)], names + [tasks[i].name], i + 1, now, failing)
  {
    PassAt(all, i, now, failing);
    assert tasks[i] == tasks[i..][0] == all[i];
    assert tasks[i + 1..] == tasks[i..][1..] && all[i + 1..] == all[i..][1..];
    var tasks' := tasks[i := Ran(tasks[i], now)];
    assert tasks'[..i + 1] == tasks[..i] + [Ran(tasks[i], now)] && tasks'[i + 1..] == tasks[i + 1..];
  }

  lemma ReachedEnd(all: seq<Task>, tasks: seq<Task>, names: seq<string>, i: nat, now: int, failing: set<string>)
    requires Reached(all, tasks, names, i, now, failing) && i == |all|
    ensures Pass(all, now, failing) == (tasks, names)
  {
    assert all[i..] == [] && tasks[..i] + [] == tasks && names + [] == names;
  }

  /** One step of a pass, seen from the `i`-th task on. */
  lemma PassAt(tasks: seq<Task>, i: nat, now: int, failing: set<string>)
    requires i < |tasks|
    ensures var (here, next) := (Pass(tasks[i..], now, failing), Pass(tasks[i + 1..], now, failing));
            here == if !Due(tasks[i], now) then ([tasks[i]] + next.0, next.1)
                    else if tasks[i].name in failing then (tasks[i..], [])
                    else ([Ran(tasks[i], now)] + next.0, [tasks[i].name] + next.1)
  {
    assert tasks[i..][1..] == tasks[i + 1..];
  }

  // ----- Runs -----

  datatype Event =
    | Register(name: string, jobType: string, intervalSeconds: int, priority: int)
    | Unregister(name: string)
    | Switch(name: string, enabled: bool)
    | Tick(now: int, failing: set<string>)

  function After(tasks: seq<Task>, e: Event): seq<Task> {
    match e
    case Register(name, jobType, interval, priority) => Put(tasks, NewTask(name, jobType, interval, priority))
    case Unregister(name) => Remove(tasks, name)
    case Switch(name, enabled) => SetEnabled(tasks, name, enabled)
    case Tick(now, failing) => Pass(tasks, now, failing).0
  }

  function RunTo(events: seq<Event>): seq<Task> {
    if events == [] then [] else After(RunTo(events[..|events| - 1]), events[|events| - 1])
  }

  /** The names handed to the queue by the last event. */
  function Handed(events: seq<Event>): seq<string>
    requires events != []
  {
    var last := events[|events| - 1];
    if last.Tick? then Pass(RunTo(events[..|events| - 1]), last.now, last.failing).1 else []
  }

  /** When the task was handed to the queue since it was last registered, oldest first. */
  ghost function RunsOf(events: seq<Event>, name: string): seq<int> {
    if events == [] then []
    else
      var before, last := RunsOf(events[..|events| - 1], name), events[|events| - 1];
      if (last.Register? || last.Unregister?) && last.name == name then []
      else if last.Tick? && name in Handed(events) then before + [last.now]
      else before
  }

  lemma {:induction false} PassNames(tasks: seq<Task>, now: int, failing: set<string>)
    ensures forall name :: name in Pass(tasks, now, failing).1 ==> Registered(tasks, name)
  {
    if tasks != [] {
      PassNames(tasks[1..], now, failing);
      forall name | name in Pass(tasks, now, failing).1 ensures Registered(tasks, name) {
        if name != tasks[0].name {
          var i :| 0 <= i < |tasks[1..]| && tasks[1..][i].name == name;
          assert tasks[i + 1].name == name;
        }
      }
    }
  }

  /** What a pass does to one task, given the names it handed over. */
  ghost predicate Treated(task: Task, task': Task, names: seq<string>, now: int, complete: bool) {
    && task' == (if task.name in names then task.(lastRun := Some(now), runCount := task.runCount + 1) else task)
    && (task.name in names ==>
          task.enabled && (task.lastRun.Some? ==> task.lastRun.value + task.intervalSeconds * 1_000_000 <= now))
    && (complete && task.enabled && (task.lastRun.Some? ==> task.lastRun.value + task.intervalSeconds * 1_000_000 <= now) ==>
          task.name in names)
  }

  lemma TreatedByMore(task: Task, task': Task, name: string, names: seq<string>, now: int, complete: bool)
    requires Treated(task, task', names, now, complete) && task.name != name
    ensures Treated(task, task', [name] + names, now, complete)
  {
  }

  /** A pass hands over only due tasks and touches only those; without failures, all due tasks. */
  lemma {:induction false} PassEffect(tasks: seq<Task>, now: int, failing: set<string>)
    requires UniqueNames(tasks)
    ensures var (tasks', names) := Pass(tasks, now, failing);
            && |tasks'| == |tasks|
            && forall i :: 0 <= i < |tasks| ==> Treated(tasks[i], tasks'[i], names, now, failing == {})
  {
    if tasks != [] {
      PassEffect(tasks[1..], now, failing);
      PassNames(tasks[1..], now, failing);
      var (rest, restNames) := Pass(tasks[1..], now, failing);
      var (tasks', names) := Pass(tasks, now, failing);
      assert !Registered(tasks[1..], tasks[0].name);
      assert tasks[0].name !in restNames;
      if !Due(tasks[0], now) || tasks[0].name !in failing {
        forall i | 0 < i < |tasks| ensures Treated(tasks[i], tasks'[i], names, now, failing == {}) {
          assert Treated(tasks[1..][i - 1], rest[i - 1], restNames, now, failing == {});
          if Due(tasks[0], now) {
            TreatedByMore(tasks[i], rest[i - 1], tasks[0].name, restNames, now, failing == {});
          }
        }
      }
    }
  }

  lemma {:induction false} PassDistinct(tasks: seq<Task>, now: int, failing: set<string>)
    requires UniqueNames(tasks)
    ensures Distinct(Pass(tasks, now, failing).1)
  {
    if tasks != [] {
      PassDistinct(tasks[1..], now, failing);
      PassNames(tasks[1..], now, failing);
      assert !Registered(tasks[1..], tasks[0].name);
    }
  }

  /** The task `a` stands before the task `b` in the table. */
  ghost predicate StandsBefore(tasks: seq<Task>, a: string, b: string) {
    exists i, j :: 0 <= i < j < |tasks| && tasks[i].name == a && tasks[j].name == b
  }

  lemma StandsBeforeInRest(tasks: seq<Task>, a: string, b: string)
    requires tasks != [] && StandsBefore(tasks[1..], a, b)
    ensures StandsBefore(tasks, a, b)
  {
    var i, j :| 0 <= i < j < |tasks[1..]| && tasks[1..][i].name == a && tasks[1..][j].name == b;
    assert tasks[i + 1].name == a && tasks[j + 1].name == b;
  }

  ghost predicate InTableOrder(tasks: seq<Task>, names: seq<string>) {
    forall p, q {:trigger names[p], names[q]} :: 0 <= p < q < |names| ==> StandsBefore(tasks, names[p], names[q])
  }

  /** A pass hands tasks over in the order of the table. */
  lemma {:induction false} PassInOrder(tasks: seq<Task>, now: int, failing: set<string>)
    ensures InTableOrder(tasks, Pass(tasks, now, failing).1)
  {
    if tasks != [] {
      var rest, names := Pass(tasks[1..], now, failing).1, Pass(tasks, now, failing).1;
      PassInOrder(tasks[1..], now, failing);
      PassNames(tasks[1..], now, failing);
      forall p, q | 0 <= p < q < |names| ensures StandsBefore(tasks, names[p], names[q]) {
        if names == rest {
          assert StandsBefore(tasks[1..], rest[p], rest[q]);
          StandsBeforeInRest(tasks, names[p], names[q]);
        } else {
          assert names == [tasks[0].name] + rest && names[q] == rest[q - 1] && rest[q - 1] in rest;
          if p == 0 {
            var j :| 0 <= j < |tasks[1..]| && tasks[1..][j].name == names[q];
            assert tasks[0].name == names[p] && tasks[j + 1].name == names[q];
          } else {
            assert names[p] == rest[p - 1] && StandsBefore(tasks[1..], rest[p - 1], rest[q - 1]);
            StandsBeforeInRest(tasks, names[p], names[q]);
          }
        }
      }
    }
  }

  // ----- Every task's books are right -----

  /** Consecutive instants are at least `gap` apart. */
  ghost predicate Spaced(times: seq<int>, gap: int) {
    forall i :: 0 < i < |times| ==> times[i] - times[i - 1] >= gap
  }

  ghost predicate BooksRight(task: Task, runs: seq<int>) {
    && task.runCount == |runs|
    && task.lastRun == (if runs == [] then None else Some(runs[|runs| - 1]))
    && Spaced(runs, task.intervalSeconds * SECOND)
  }

  ghost predicate AllBooksRight(tasks: seq<Task>, events: seq<Event>) {
    UniqueNames(tasks) && forall i :: 0 <= i < |tasks| ==> BooksRight(tasks[i], RunsOf(events, tasks[i].name))
  }

  lemma {:induction false} PutEffect(tasks: seq<Task>, task: Task)
    requires UniqueNames(tasks)
    ensures UniqueNames(Put(tasks, task))
    ensures forall t :: t in Put(tasks, task) ==> t == task || (t in tasks && t.name != task.name)
    ensures forall t :: t in tasks && t.name != task.name ==> t in Put(tasks, task)
    ensures task in Put(tasks, task)
  {
    if tasks != [] {
      assert tasks == [tasks[0]] + tasks[1..];
      PutEffect(tasks[1..], task);
      var rest := Put(tasks[1..], task);
      if tasks[0].name != task.name {
        forall j | 0 <= j < |rest| ensures rest[j].name != tasks[0].name {
          assert rest[j] in rest;
        }
      } else {
        forall t | t in tasks[1..] ensures t.name != task.name {
        }
      }
    }
  }

  lemma {:induction false} RemoveEffect(tasks: seq<Task>, name: string)
    requires UniqueNames(tasks)
    ensures UniqueNames(Remove(tasks, name))
    ensures forall t :: t in Remove(tasks, name) <==> t in tasks && t.name != name
  {
    if tasks != [] {
      assert tasks == [tasks[0]] + tasks[1..];
      RemoveEffect(tasks[1..], name);
      var rest := Remove(tasks[1..], name);
      if tasks[0].name != name {
        forall j | 0 <= j < |rest| ensures rest[j].name != tasks[0].name {
          assert rest[j] in rest;
        }
      }
    }
  }

  lemma {:induction false} SetEnabledEffect(tasks: seq<Task>, name: string, enabled: bool)
    requires UniqueNames(tasks)
    ensures var tasks' := SetEnabled(tasks, name, enabled);
            && |tasks'| == |tasks| && UniqueNames(tasks')
            && forall i :: 0 <= i < |tasks| ==>
                 tasks'[i] == if tasks[i].name == name then tasks[i].(enabled := enabled) else tasks[i]
  {
    if tasks != [] {
      SetEnabledEffect(tasks[1..], name, enabled);
    }
  }

  /** Where a record goes: into its old place, or to the end. */
  lemma {:induction false} PutPlaces(tasks: seq<Task>, task: Task)
    requires UniqueNames(tasks)
    ensures !Registered(tasks, task.name) ==> Put(tasks, task) == tasks + [task]
    ensures forall i :: 0 <= i < |tasks| && tasks[i].name == task.name ==> Put(tasks, task) == tasks[i := task]
  {
    if tasks != [] {
      var rest := tasks[1..];
      PutPlaces(rest, task);
      assert tasks == [tasks[0]] + rest;
      assert Registered(rest, task.name) ==> Registered(tasks, task.name) by {
        if i :| 0 <= i < |rest| && rest[i].name == task.name {
          assert tasks[i + 1].name == task.name;
        }
      }
      forall i | 0 <= i < |tasks| && tasks[i].name == task.name ensures Put(tasks, task) == tasks[i := task] {
        if i > 0 {
          assert rest[i - 1].name == task.name;
          assert tasks[i := task] == [tasks[0]] + rest[i - 1 := task];
        }
      }
    }
  }

  lemma SkipInRest<T>(s: seq<T>, i: nat)
    requires 0 < i < |s|
    ensures s[..i] + s[i + 1..] == [s[0]] + (s[1..][..i - 1] + s[1..][i..])
  {
  }

  lemma {:induction false} RemovePlaces(tasks: seq<Task>, name: string)
    requires UniqueNames(tasks)
    ensures !Registered(tasks, name) ==> Remove(tasks, name) == tasks
    ensures forall i :: 0 <= i < |tasks| && tasks[i].name == name ==> Remove(tasks, name) == tasks[..i] + tasks[i + 1..]
  {
    if tasks != [] {
      var rest := tasks[1..];
      RemovePlaces(rest, name);
      assert tasks == [tasks[0]] + rest;
      assert Registered(rest, name) ==> Registered(tasks, name) by {
        if i :| 0 <= i < |rest| && rest[i].name == name {
          assert tasks[i + 1].name == name;
        }
      }
      forall i | 0 <= i < |tasks| && tasks[i].name == name ensures Remove(tasks, name) == tasks[..i] + tasks[i + 1..] {
        if i > 0 {
          assert rest[i - 1].name == name;
          SkipInRest(tasks, i);
        }
      }
    }
  }

  lemma SwitchPlaces(tasks: seq<Task>, name: string, enabled: bool)
    requires UniqueNames(tasks)
    ensures !Registered(tasks, name) ==> SetEnabled(tasks, name, enabled) == tasks
    ensures forall i :: 0 <= i < |tasks| && tasks[i].name == name ==>
              SetEnabled(tasks, name, enabled) == tasks[i := tasks[i].(enabled := enabled)]
  {
    SetEnabledEffect(tasks, name, enabled);
  }

  lemma PassKeepsNames(tasks: seq<Task>, now: int, failing: set<string>)
    requires UniqueNames(tasks)
    ensures UniqueNames(Pass(tasks, now, failing).0)
  {
    PassEffect(tasks, now, failing);
    var tasks' := Pass(tasks, now, failing).0;
    forall i | 0 <= i < |tasks| ensures tasks'[i].name == tasks[i].name {
      assert Treated(tasks[i], tasks'[i], Pass(tasks, now, failing).1, now, failing == {});
    }
  }

  lemma TickKeepsBooks(tasks: seq<Task>, before: seq<Event>, e: Event)
    requires e.Tick? && tasks == RunTo(before) && AllBooksRight(tasks, before)
    ensures AllBooksRight(After(tasks, e), before + [e])
  {
    var events := before + [e];
    assert events[..|before|] == before;
    PassEffect(tasks, e.now, e.failing);
    var tasks' := After(tasks, e);
    var names := Handed(events);
    forall i | 0 <= i < |tasks'|
      ensures tasks'[i].name == tasks[i].name && BooksRight(tasks'[i], RunsOf(events, tasks[i].name))
    {
      assert Treated(tasks[i], tasks'[i], names, e.now, e.failing == {});
      assert BooksRight(tasks[i], RunsOf(before, tasks[i].name));
    }
  }

  /** Tasks with other names keep their record and their runs. */
  lemma OthersKeepBooks(tasks: seq<Task>, before: seq<Event>, e: Event, task: Task)
    requires (e.Register? || e.Unregister?) && AllBooksRight(tasks, before)
    requires task in tasks && task.name != e.name
    ensures BooksRight(task, RunsOf(before + [e], task.name))
  {
    assert (before + [e])[..|before|] == before;
    var j :| 0 <= j < |tasks| && tasks[j] == task;
    assert BooksRight(tasks[j], RunsOf(before, tasks[j].name));
  }

  lemma RegisterKeepsBooks(tasks: seq<Task>, before: seq<Event>, e: Event)
    requires (e.Register? || e.Unregister?) && AllBooksRight(tasks, before)
    ensures AllBooksRight(After(tasks, e), before + [e])
  {
    var events := before + [e];
    var tasks' := After(tasks, e);
    if e.Register? {
      PutEffect(tasks, NewTask(e.name, e.jobType, e.intervalSeconds, e.priority));
    } else {
      RemoveEffect(tasks, e.name);
    }
    forall i | 0 <= i < |tasks'| ensures BooksRight(tasks'[i], RunsOf(events, tasks'[i].name)) {
      assert tasks'[i] in tasks';
      if tasks'[i].name != e.name {
        OthersKeepBooks(tasks, before, e, tasks'[i]);
      }
    }
  }

  lemma SwitchKeepsBooks(tasks: seq<Task>, before: seq<Event>, e: Event)
    requires e.Switch? && AllBooksRight(tasks, before)
    ensures AllBooksRight(After(tasks, e), before + [e])
  {
    var events := before + [e];
    assert events[..|before|] == before;
    SetEnabledEffect(tasks, e.name, e.enabled);
    var tasks' := After(tasks, e);
    forall i | 0 <= i < |tasks'| ensures BooksRight(tasks'[i], RunsOf(events, tasks'[i].name)) {
      assert BooksRight(tasks[i], RunsOf(before, tasks[i].name));
    }
  }

  /**
   In every reachable state a task's run count is the number of jobs enqueued for it since its
   registration, and any two consecutive enqueues are at least its interval apart.
   */
  lemma {:induction false} BooksAlwaysRight(events: seq<Event>)
    ensures AllBooksRight(RunTo(events), events)
  {
    if events != [] {
      var before, e := events[..|events| - 1], events[|events| - 1];
      assert events == before + [e];
      BooksAlwaysRight(before);
      match e
      case Register(_, _, _, _) => RegisterKeepsBooks(RunTo(before), before, e);
      case Unregister(_) => RegisterKeepsBooks(RunTo(before), before, e);
      case Switch(_, _) => SwitchKeepsBooks(RunTo(before), before, e);
      case Tick(_, _) => TickKeepsBooks(RunTo(before), before, e);
    }
  }

  lemma {:induction false} SpacedSpan(times: seq<int>, gap: int)
    requires times != [] && Spaced(times, gap)
    ensures times[|times| - 1] - times[0] >= (|times| - 1) * gap
  {
    if |times| > 1 {
      SpacedSpan(times[..|times| - 1], gap);
      assert (|times| - 1) * gap == (|times| - 2) * gap + gap;
    }
  }

  /** run_count <= 1 + elapsed / interval, elapsed being the time between the first and last enqueue. */
  lemma RunCountBounded(events: seq<Event>, i: nat)
    requires i < |RunTo(events)| && RunTo(events)[i].runCount >= 1
    ensures var task := RunTo(events)[i];
            var runs := RunsOf(events, task.name);
            && runs != []
            && (task.runCount - 1) * (task.intervalSeconds * SECOND) <= runs[|runs| - 1] - runs[0]
  {
    BooksAlwaysRight(events);
    var task := RunTo(events)[i];
    assert BooksRight(task, RunsOf(events, task.name));
    SpacedSpan(RunsOf(events, task.name), task.intervalSeconds * SECOND);
  }

  // ----- An enabled task is not late -----

  /** The pass is not cut short before it has dealt with the named task. */
  ghost predicate Reaches(tasks: seq<Task>, now: int, failing: set<string>, name: string) {
    forall i, j :: 0 <= j <= i < |tasks| && tasks[i].name == name && Due(tasks[j], now) ==> tasks[j].name !in failing
  }

  /** The event neither replaces, removes nor switches the task, and a pass reaches it. */
  ghost predicate Spares(tasks: seq<Task>, e: Event, name: string) {
    if e.Tick? then Reaches(tasks, e.now, e.failing, name) else e.name != name
  }

  ghost predicate Undisturbed(past: seq<Event>, events: seq<Event>, name: string)
    decreases |events|
  {
    if events == [] then true
    else
      var before := events[..|events| - 1];
      Undisturbed(past, before, name) && Spares(RunTo(past + before), events[|events| - 1], name)
  }

  /** The time of the latest pass, `last` being the latest one before these events. */
  function LastPass(last: int, events: seq<Event>): int {
    if events == [] then last
    else if events[|events| - 1].Tick? then events[|events| - 1].now
    else LastPass(last, events[..|events| - 1])
  }

  /** The clock does not go back and passes are at most `c` apart. */
  ghost predicate PassesWithin(last: int, events: seq<Event>, c: int) {
    if events == [] then true
    else
      var before, e := events[..|events| - 1], events[|events| - 1];
      && PassesWithin(last, before, c)
      && (e.Tick? ==> LastPass(last, before) <= e.now <= LastPass(last, before) + c)
  }

  /**
   From the `n`-th on, runs are at least `gap` and less than gap + c apart, and at `last` the latest
   of them is less than `gap` old.
   */
  ghost predicate Timely(runs: seq<int>, n: nat, last: int, gap: int, c: int) {
    && (forall i :: n <= i < |runs| && i > 0 ==> gap <= runs[i] - runs[i - 1] < gap + c)
    && runs != [] && runs[|runs| - 1] <= last < runs[|runs| - 1] + gap
  }

  ghost predicate OnTime(task: Task, runs: seq<int>, n: nat, last: int, c: int) {
    && Timely(runs, n, last, task.intervalSeconds * SECOND, c)
    && task.enabled && task.lastRun == Some(runs[|runs| - 1])
  }

  lemma OnTimeAfterPass(task: Task, runs: seq<int>, n: nat, last: int, c: int, now: int)
    requires OnTime(task, runs, n, last, c) && last <= now <= last + c
    ensures if Due(task, now) then OnTime(Ran(task, now), runs + [now], n, now, c) else OnTime(task, runs, n, now, c)
  {
  }

  lemma EventSnoc(events: seq<Event>, e: Event, name: string)
    requires e.Tick? || e.name != name
    ensures RunTo(events + [e]) == After(RunTo(events), e)
    ensures RunsOf(events + [e], name) ==
              if e.Tick? && name in Pass(RunTo(events), e.now, e.failing).1 then RunsOf(events, name) + [e.now]
              else RunsOf(events, name)
  {
    assert (events + [e])[..|events|] == events;
  }

  /**
   A pass hands over exactly the tasks that are enabled, have not run within their interval, and are not
   cut off by the failure of such a task at or before them.
   */
  lemma PassRunsIff(tasks: seq<Task>, now: int, failing: set<string>, i: nat)
    requires UniqueNames(tasks) && i < |tasks|
    ensures tasks[i].name in Pass(tasks, now, failing).1 <==>
              && tasks[i].enabled
              && (tasks[i].lastRun.Some? ==> now - tasks[i].lastRun.value >= tasks[i].intervalSeconds * 1_000_000)
              && forall j :: 0 <= j <= i && tasks[j].name in failing ==>
                   !tasks[j].enabled
                   || (tasks[j].lastRun.Some? && now - tasks[j].lastRun.value < tasks[j].intervalSeconds * 1_000_000)
  {
    PassRunsDue(tasks, now, failing, i);
    forall j | 0 <= j <= i
      ensures Due(tasks[j], now) <==>
                tasks[j].enabled && !(tasks[j].lastRun.Some? && now - tasks[j].lastRun.value < tasks[j].intervalSeconds * 1_000_000)
    {
    }
  }

  lemma {:induction false} PassRunsDue(tasks: seq<Task>, now: int, failing: set<string>, i: nat)
    requires UniqueNames(tasks) && i < |tasks|
    ensures tasks[i].name in Pass(tasks, now, failing).1 <==>
              Due(tasks[i], now) && forall j :: 0 <= j <= i && Due(tasks[j], now) ==> tasks[j].name !in failing
  {
    var rest := tasks[1..];
    PassNames(rest, now, failing);
    assert !Registered(rest, tasks[0].name);
    if i > 0 {
      PassRunsDue(rest, now, failing, i - 1);
      assert forall j :: 0 < j <= i ==> rest[j - 1] == tasks[j];
      if forall j :: 0 <= j <= i - 1 && Due(rest[j], now) ==> rest[j].name !in failing {
        assert forall j :: 0 < j <= i && Due(tasks[j], now) ==> tasks[j].name !in failing;
      } else {
        var j :| 0 <= j <= i - 1 && Due(rest[j], now) && rest[j].name in failing;
        assert tasks[j + 1] == rest[j];
      }
    }
  }

  lemma TickOnTask(tasks: seq<Task>, now: int, failing: set<string>, task: Task)
    requires UniqueNames(tasks) && task in tasks && Reaches(tasks, now, failing, task.name)
    ensures (if Due(task, now) then Ran(task, now) else task) in Pass(tasks, now, failing).0
    ensures task.name in Pass(tasks, now, failing).1 <==> Due(task, now)
  {
    PassEffect(tasks, now, failing);
    var i :| 0 <= i < |tasks| && tasks[i] == task;
    PassRunsDue(tasks, now, failing, i);
    assert Treated(tasks[i], Pass(tasks, now, failing).0[i], Pass(tasks, now, failing).1, now, failing == {});
  }

  lemma SparedByOthers(tasks: seq<Task>, e: Event, task: Task)
    requires UniqueNames(tasks) && task in tasks && !e.Tick? && e.name != task.name
    ensures task in After(tasks, e)
  {
    match e
    case Register(name, jobType, interval, priority) => PutEffect(tasks, NewTask(name, jobType, interval, priority));
    case Unregister(name) => RemoveEffect(tasks, name);
    case Switch(name, enabled) =>
      SetEnabledEffect(tasks, name, enabled);
      var i :| 0 <= i < |tasks| && tasks[i] == task;
      assert SetEnabled(tasks, name, enabled)[i] == task;
  }

  /** `task` is in the table after `events`, and on time at `last`. */
  ghost predicate Punctual(events: seq<Event>, task: Task, n: nat, last: int, c: int) {
    task in RunTo(events) && OnTime(task, RunsOf(events, task.name), n, last, c)
  }

  lemma PunctualStep(events: seq<Event>, e: Event, task: Task, n: nat, last: int, c: int) returns (task': Task)
    requires Punctual(events, task, n, last, c) && Spares(RunTo(events), e, task.name) && UniqueNames(RunTo(events))
    requires e.Tick? ==> last <= e.now <= last + c
    ensures task'.name == task.name && task'.intervalSeconds == task.intervalSeconds
    ensures Punctual(events + [e], task', n, if e.Tick? then e.now else last, c)
  {
    EventSnoc(events, e, task.name);
    if e.Tick? {
      TickOnTask(RunTo(events), e.now, e.failing, task);
      OnTimeAfterPass(task, RunsOf(events, task.name), n, last, c, e.now);
      task' := if Due(task, e.now) then Ran(task, e.now) else task;
    } else {
      SparedByOthers(RunTo(events), e, task);
      task' := task;
    }
  }

  lemma {:induction false} StaysPunctual(past: seq<Event>, events: seq<Event>, task: Task, n: nat, last: int, c: int)
    returns (task': Task)
    requires Punctual(past, task, n, last, c) && PassesWithin(last, events, c) && Undisturbed(past, events, task.name)
    ensures task'.name == task.name && task'.intervalSeconds == task.intervalSeconds
    ensures Punctual(past + events, task', n, LastPass(last, events), c)
    decreases |events|
  {
    task' := task;
    if events == [] {
      assert past + events == past;
    } else {
      var front, e := events[..|events| - 1], events[|events| - 1];
      assert past + events == past + front + [e];
      task' := StaysPunctual(past, front, task, n, last, c);
      BooksAlwaysRight(past + front);
      task' := PunctualStep(past + front, e, task', n, LastPass(last, front), c);
    }
  }

  lemma TaskBooks(events: seq<Event>, task: Task)
    requires task in RunTo(events)
    ensures BooksRight(task, RunsOf(events, task.name))
  {
    BooksAlwaysRight(events);
    var k :| 0 <= k < |RunTo(events)| && RunTo(events)[k] == task;
    assert BooksRight(RunTo(events)[k], RunsOf(events, RunTo(events)[k].name));
  }

  lemma StartsPunctual(events: seq<Event>, task: Task, last: int, c: int)
    requires task in RunTo(events) && task.enabled && task.lastRun.Some?
    requires task.lastRun.value <= last < task.lastRun.value + task.intervalSeconds * SECOND
    ensures Punctual(events, task, |RunsOf(events, task.name)|, last, c)
  {
    TaskBooks(events, task);
  }

  /**
   A task of any reachable state that is enabled, has run, and was not due at the pass `last`: while
   it is left alone and passes are at most `c` apart, its jobs are enqueued at least the interval and
   less than interval + c apart, and at every pass the latest of them is less than an interval old.
   */
  lemma EnabledTaskIsPunctual(past: seq<Event>, events: seq<Event>, task: Task, last: int, c: int)
    requires task in RunTo(past) && task.enabled && task.lastRun.Some?
    requires task.lastRun.value <= last < task.lastRun.value + task.intervalSeconds * SECOND
    requires PassesWithin(last, events, c) && Undisturbed(past, events, task.name)
    ensures Timely(RunsOf(past + events, task.name), |RunsOf(past, task.name)|, LastPass(last, events),
                   task.intervalSeconds * SECOND, c)
  {
    var n := |RunsOf(past, task.name)|;
    StartsPunctual(past, task, last, c);
    var task' := StaysPunctual(past, events, task, n, last, c);
  }

  /**
   Every enabled task with a positive interval, whether it has run or is overdue: it is punctual
   from the first pass `e` that reaches it on, unless the clock goes back behind its last run.
   */
  lemma PunctualFromFirstPass(past: seq<Event>, e: Event, events: seq<Event>, task: Task, c: int)
    requires task in RunTo(past) && task.enabled && task.intervalSeconds >= 1
    requires e.Tick? && Spares(RunTo(past), e, task.name) && (task.lastRun.Some? ==> task.lastRun.value <= e.now)
    requires PassesWithin(e.now, events, c) && Undisturbed(past + [e], events, task.name)
    ensures Timely(RunsOf(past + [e] + events, task.name), |RunsOf(past + [e], task.name)|, LastPass(e.now, events),
                   task.intervalSeconds * SECOND, c)
  {
    BooksAlwaysRight(past);
    EventSnoc(past, e, task.name);
    TickOnTask(RunTo(past), e.now, e.failing, task);
    EnabledTaskIsPunctual(past + [e], events, if Due(task, e.now) then Ran(task, e.now) else task, e.now, c);
  }

  // ----- A disabled task stays put -----

  lemma DisabledStep(past: seq<Event>, e: Event, task: Task)
    requires task in RunTo(past) && UniqueNames(RunTo(past)) && !task.enabled && (e.Tick? || e.name != task.name)
    ensures task in RunTo(past + [e]) && RunsOf(past + [e], task.name) == RunsOf(past, task.name)
  {
    EventSnoc(past, e, task.name);
    if e.Tick? {
      PassEffect(RunTo(past), e.now, e.failing);
      var i :| 0 <= i < |RunTo(past)| && RunTo(past)[i] == task;
      assert Treated(RunTo(past)[i], Pass(RunTo(past), e.now, e.failing).0[i], Pass(RunTo(past), e.now, e.failing).1,
                     e.now, e.failing == {});
    } else {
      SparedByOthers(RunTo(past), e, task);
    }
  }

  /**
   From any reachable state in which a task is disabled, until it is switched, registered again or
   removed: whatever the passes and the other tasks do, it is not handed over and its record stays.
   */
  lemma {:induction false} DisabledStaysPut(past: seq<Event>, events: seq<Event>, task: Task)
    requires task in RunTo(past) && !task.enabled
    requires forall e :: e in events ==> e.Tick? || e.name != task.name
    ensures task in RunTo(past + events) && RunsOf(past + events, task.name) == RunsOf(past, task.name)
    decreases |events|
  {
    if events == [] {
      assert past + events == past;
    } else {
      var front, e := events[..|events| - 1], events[|events| - 1];
      assert past + events == past + front + [e];
      DisabledStaysPut(past, front, task);
      BooksAlwaysRight(past + front);
      DisabledStep(past + front, e, task);
    }
  }

  // ----- The scheduler itself -----

  class TaskScheduler {
    var tasks: seq<Task>
    var handed: seq<string>  // the tasks enqueued so far, oldest first

    ghost predicate Valid()
      reads this
    {
      UniqueNames(tasks)
    }

    constructor ()
      ensures Valid() && tasks == [] && handed == []
    {
      tasks, handed := [], [];
    }

    /** A known name gets a fresh record in its old place, a new one a record at the end. */
    method Register(name: string, jobType: string, intervalSeconds: int, priority: int)
      requires Valid()
      modifies `tasks
      ensures Valid() && tasks == Put(old(tasks), NewTask(name, jobType, intervalSeconds, priority))
      ensures !Registered(old(tasks), name) ==>
                tasks == old(tasks) + [Task(name, jobType, intervalSeconds, priority, true, None, 0)]
      ensures forall i :: 0 <= i < |old(tasks)| && old(tasks)[i].name == name ==>
                tasks == old(tasks)[i := Task(name, jobType, intervalSeconds, priority, true, None, 0)]
    {
      PutPlaces(tasks, NewTask(name, jobType, intervalSeconds, priority));
      PutEffect(tasks, NewTask(name, jobType, intervalSeconds, priority));
      tasks := Put(tasks, Task(name, jobType, intervalSeconds, priority, true, None, 0));
    }

    /** The named task goes; the others keep their records and their order. */
    method Unregister(name: string) returns (found: bool)
      requires Valid()
      modifies `tasks
      ensures Valid() && tasks == Remove(old(tasks), name)
      ensures found <==> exists t :: t in old(tasks) && t.name == name
      ensures !found ==> tasks == old(tasks)
      ensures forall i :: 0 <= i < |old(tasks)| && old(tasks)[i].name == name ==>
                tasks == old(tasks)[..i] + old(tasks)[i + 1..]
    {
      RemovePlaces(tasks, name);
      RemoveEffect(tasks, name);
      found := Registered(tasks, name);
      if found {
        tasks := Remove(tasks, name);
      }
    }

    /** `enable` and `disable`: one flag of one task. */
    method Switch(name: string, enabled: bool) returns (found: bool)
      requires Valid()
      modifies `tasks
      ensures Valid() && tasks == SetEnabled(old(tasks), name, enabled)
      ensures found <==> exists t :: t in old(tasks) && t.name == name
      ensures !found ==> tasks == old(tasks)
      ensures forall i :: 0 <= i < |old(tasks)| && old(tasks)[i].name == name ==>
                tasks == old(tasks)[i := old(tasks)[i].(enabled := enabled)]
    {
      SwitchPlaces(tasks, name, enabled);
      SetEnabledEffect(tasks, name, enabled);
      found := Registered(tasks, name);
      if found {
        tasks := SetEnabled(tasks, name, enabled);
      }
    }

    /** The body of `_scheduler_loop`. */
    method RunPass(now: int, failing: set<string>)
      requires Valid()
      modifies this
      ensures Valid() && tasks == Pass(old(tasks), now, failing).0
      ensures handed == old(handed) + Pass(old(tasks), now, failing).1
    {
      ghost var all := tasks;
      ghost var names := [];
      var i := 0;
      assert all[0..] == all;
      while i < |tasks|
        invariant Reached(all, tasks, names, i, now, failing)
        invariant handed == old(handed) + names
      {
        if Due(tasks[i], now) {
          if tasks[i].name in failing {
            ReachedFailure(all, tasks, names, i, now, failing);
            PassKeepsNames(all, now, failing);
            return;
          }
          ReachedRun(all, tasks, names, i, now, failing);
          handed := handed + [tasks[i].name];
          names := names + [tasks[i].name];
          tasks := tasks[i := Ran(tasks[i], now)];
        } else {
          ReachedSkip(all, tasks, names, i, now, failing);
        }
        i := i + 1;
      }
      ReachedEnd(all, tasks, names, i, now, failing);
      PassKeepsNames(all, now, failing);
    }
  }
}
