/** ExecuteTasks: running named tasks in dependency order. */
module Scheduler {
  datatype Task = Task(name: string, dependsOn: seq<string>)

  /** How a run ends.  A failing dependency guard and a failing command are different errors. */
  datatype Outcome =
    | Done
    | GuardFailed(task: string, dependency: string)
    | CommandFailed(task: string)
    | NoProgress

  /** The table keyed by name that ExecuteTasks builds: a later task replaces an earlier namesake. */
  function TaskMap(tasks: seq<Task>): map<string, Task> {
    if tasks == [] then
      map[]
    else
      var last := tasks[|tasks| - 1];
      TaskMap(tasks[..|tasks| - 1])[last.name := last]
  }

  lemma {:induction false} TaskMapNames(tasks: seq<Task>)
    ensures forall n :: n in TaskMap(tasks) <==> exists i :: 0 <= i < |tasks| && tasks[i].name == n
    ensures forall n | n in TaskMap(tasks) :: TaskMap(tasks)[n].name == n
  {
    if tasks != [] {
      var k := |tasks| - 1;
      TaskMapNames(tasks[..k]);
      forall n ensures n in TaskMap(tasks) <==> exists i :: 0 <= i < |tasks| && tasks[i].name == n {
        if n in TaskMap(tasks[..k]) {
          var i :| 0 <= i < k && tasks[..k][i].name == n;
          assert tasks[i].name == n;
        }
        if i :| 0 <= i < |tasks| && tasks[i].name == n {
          assert i < k ==> tasks[..k][i].name == n;
        }
      }
    }
  }

  // ----- the given tasks themselves

  /** tasks[i] counts: no later task has its name. */
  ghost predicate Counts(tasks: seq<Task>, i: nat)
    requires i < |tasks|
  {
    forall j | i < j < |tasks| :: tasks[j].name != tasks[i].name
  }

  ghost predicate IsGiven(tasks: seq<Task>, n: string) {
    exists i :: 0 <= i < |tasks| && tasks[i].name == n
  }

  /** The task that counts under the name n depends on d. */
  ghost predicate DependsOn(tasks: seq<Task>, n: string, d: string) {
    exists i :: 0 <= i < |tasks| && tasks[i].name == n && Counts(tasks, i) && d in tasks[i].dependsOn
  }

  /** Each task of c depends on the next one, and the last on the first. */
  ghost predicate TaskCycle(tasks: seq<Task>, c: seq<string>) {
    && c != [] && (forall i | 0 <= i < |c| - 1 :: DependsOn(tasks, c[i], c[i + 1]))
    && DependsOn(tasks, c[|c| - 1], c[0])
  }

  /** n is run, and every task it depends on was run before. */
  ghost predicate RunInOrder(tasks: seq<Task>, log: seq<string>, p: nat)
    requires p < |log|
  {
    IsGiven(tasks, log[p]) && forall d | DependsOn(tasks, log[p], d) :: d in log[..p]
  }

  /** The table holds, under each name, the last one given with it. */
  lemma {:induction false} TableHolds(tasks: seq<Task>, i: nat)
    requires i < |tasks| && Counts(tasks, i)
    ensures tasks[i].name in TaskMap(tasks) && TaskMap(tasks)[tasks[i].name] == tasks[i]
  {
    var k := |tasks| - 1;
    if i < k {
      assert tasks[k].name != tasks[i].name;
      assert Counts(tasks[..k], i);
      TableHolds(tasks[..k], i);
    }
  }

  lemma {:induction false} LastNamesake(tasks: seq<Task>, n: string) returns (i: nat)
    requires IsGiven(tasks, n)
    ensures i < |tasks| && tasks[i].name == n && Counts(tasks, i)
  {
    var k := |tasks| - 1;
    if tasks[k].name == n {
      i := k;
    } else {
      var j :| 0 <= j < |tasks| && tasks[j].name == n;
      assert tasks[..k][j].name == n;
      i := LastNamesake(tasks[..k], n);
      assert forall j | i < j < k :: tasks[..k][j].name != n;
    }
  }

  lemma TableDependsOn(tasks: seq<Task>, n: string, d: string)
    ensures n in TaskMap(tasks) <==> IsGiven(tasks, n)
    ensures DependsOn(tasks, n, d) <==> n in TaskMap(tasks) && d in TaskMap(tasks)[n].dependsOn
  {
    TaskMapNames(tasks);
    if i :| 0 <= i < |tasks| && tasks[i].name == n && Counts(tasks, i) && d in tasks[i].dependsOn {
      TableHolds(tasks, i);
    }
    if IsGiven(tasks, n) {
      var i := LastNamesake(tasks, n);
      TableHolds(tasks, i);
    }
  }

  predicate Ready(m: map<string, Task>, done: set<string>, n: string) {
    n in m && forall d | d in m[n].dependsOn :: d in done
  }

  function Names(run: seq<string>): set<string> {
    set n | n in run
  }

  /** A run that executes known tasks, each once and after everything it depends on. */
  ghost predicate ValidRun(m: map<string, Task>, run: seq<string>) {
    && (forall i | 0 <= i < |run| :: Ready(m, Names(run[..i]), run[i]))
    && (forall i, j | 0 <= i < j < |run| :: run[i] != run[j])
  }

  /** Every dependency names a given task. */
  ghost predicate Closed(m: map<string, Task>) {
    forall n | n in m :: forall d | d in m[n].dependsOn :: d in m
  }

  /** A walk along dependencies. */
  ghost predicate Chain(m: map<string, Task>, p: seq<string>) {
    && (forall i | 0 <= i < |p| :: p[i] in m)
    && (forall i | 0 <= i < |p| - 1 :: p[i + 1] in m[p[i]].dependsOn)
  }

  /** A walk whose last task depends on its first. */
  ghost predicate Cycle(m: map<string, Task>, c: seq<string>) {
    |c| > 0 && Chain(m, c) && c[0] in m[c[|c| - 1]].dependsOn
  }

  ghost predicate Acyclic(m: map<string, Task>) {
    forall c :: !Cycle(m, c)
  }

  // ----- the code

  /** ExecuteTask's own dependency check, then the command. */
  method ExecuteTask(task: Task, completed: set<string>, fails: set<string>) returns (outcome: Outcome)
    ensures outcome.Done? <==> (forall d | d in task.dependsOn :: d in completed) && task.name !in fails
    ensures outcome.GuardFailed? ==> outcome.dependency in task.dependsOn && outcome.dependency !in completed
    ensures outcome.GuardFailed? <==> exists d :: d in task.dependsOn && d !in completed
    ensures outcome.CommandFailed? ==> outcome.task == task.name
    ensures !outcome.NoProgress?
  {
    for i := 0 to |task.dependsOn|
      invariant forall d | d in task.dependsOn[..i] :: d in completed
    {
      if task.dependsOn[i] !in completed {
        return GuardFailed(task.name, task.dependsOn[i]);
      }
    }
    return if task.name in fails then CommandFailed(task.name) else Done;
  }

  method CanRun(task: Task, completed: set<string>) returns (canRun: bool)
    ensures canRun <==> forall d | d in task.dependsOn :: d in completed
  {
    canRun := true;
    for i := 0 to |task.dependsOn|
      invariant canRun && forall d | d in task.dependsOn[..i] :: d in completed
    {
      if task.dependsOn[i] !in completed {
        return false;
      }
    }
  }

  method BuildTaskMap(tasks: seq<Task>) returns (taskMap: map<string, Task>, remaining: set<string>)
    ensures taskMap == TaskMap(tasks) && remaining == taskMap.Keys
    ensures forall n | n in taskMap :: taskMap[n].name == n
  {
    taskMap, remaining := map[], {};
    for i := 0 to |tasks|
      invariant taskMap == TaskMap(tasks[..i]) && remaining == taskMap.Keys
    {
      assert tasks[..i + 1][..i] == tasks[..i];
      taskMap := taskMap[tasks[i].name := tasks[i]];
      remaining := remaining + {tasks[i].name};
    }
    assert tasks[..|tasks|] == tasks;
    TaskMapNames(tasks);
  }

  /** `run` is a valid run of m without a failing command. */
  ghost predicate Sound(m: map<string, Task>, fails: set<string>, run: seq<string>) {
    ValidRun(m, run) && Names(run) <= m.Keys && Names(run) !! fails
  }

  /** Nothing more can run after `run`. */
  ghost predicate Stuck(m: map<string, Task>, run: seq<string>) {
    forall n | n in m && n !in run :: !Ready(m, Names(run), n)
  }

  lemma Extend(m: map<string, Task>, fails: set<string>, run: seq<string>, n: string)
    requires Sound(m, fails, run) && Ready(m, Names(run), n) && n !in run && n !in fails
    ensures Sound(m, fails, run + [n]) && Names(run + [n]) == Names(run) + {n}
  {
    var next := run + [n];
    forall i | 0 <= i < |next| ensures Ready(m, Names(next[..i]), next[i]) {
      assert next[..i] == run[..i];
      assert run[..|run|] == run;
    }
  }

  /** Run one remaining task if everything it depends on is completed. */
  method Attempt(taskMap: map<string, Task>, name: string, completed: set<string>, fails: set<string>, log: seq<string>)
    returns (canRun: bool, outcome: Outcome, newLog: seq<string>)
    requires Sound(taskMap, fails, log) && completed == Names(log)
    requires name in taskMap && taskMap[name].name == name && name !in completed
    ensures canRun <==> Ready(taskMap, completed, name)
    ensures !canRun ==> outcome.Done?
    ensures if canRun && outcome.Done? then
              newLog == log + [name] && Sound(taskMap, fails, newLog) && Names(newLog) == completed + {name}
            else
              newLog == log && (canRun ==> outcome == CommandFailed(name) && name in fails)
  {
    var task := taskMap[name];
    outcome, newLog := Done, log;
    canRun := CanRun(task, completed);
    if canRun {
      outcome := ExecuteTask(task, completed, fails);
      if outcome.Done? {
        Extend(taskMap, fails, log, name);
        newLog := log + [name];
      }
    }
  }

  /** Any result of a complete call: what was executed, and what the outcome says about it. */
  ghost predicate Result(m: map<string, Task>, fails: set<string>, outcome: Outcome, log: seq<string>) {
    && Sound(m, fails, log)
    && match outcome
       case Done => Names(log) == m.Keys
       case CommandFailed(n) => n in fails && n !in log && Ready(m, Names(log), n)
       case NoProgress => Names(log) != m.Keys && Stuck(m, log)
       case GuardFailed(_, _) => false
  }

  /** One pass over the remaining names, taken in any order. */
  method Round(taskMap: map<string, Task>, before: set<string>, fails: set<string>, oldLog: seq<string>)
    returns (progressMade: bool, outcome: Outcome, remaining: set<string>, log: seq<string>)
    requires Sound(taskMap, fails, oldLog) && before == taskMap.Keys - Names(oldLog)
    requires forall n | n in taskMap :: taskMap[n].name == n
    ensures Sound(taskMap, fails, log) && remaining == taskMap.Keys - Names(log)
    ensures outcome.Done? ==> if progressMade then remaining < before else remaining == before && Stuck(taskMap, log)
    ensures !outcome.Done? ==> Result(taskMap, fails, outcome, log)
  {
    progressMade, remaining, log, outcome := false, before, oldLog, Done;
    var completed := Names(log);
    var todo := remaining;
    while todo != {}
      invariant Sound(taskMap, fails, log) && completed == Names(log) && outcome.Done?
      invariant remaining == taskMap.Keys - completed && todo <= remaining
      invariant if progressMade then remaining < before else remaining == before
      invariant !progressMade ==> forall n | n in remaining - todo :: !Ready(taskMap, completed, n)
    {
      var name :| name in todo;
      todo := todo - {name};
      var canRun;
      canRun, outcome, log := Attempt(taskMap, name, completed, fails, log);
      if canRun {
        if !outcome.Done? {
          return;
        }
        completed := completed + {name};
        remaining := remaining - {name};
        progressMade := true;
      }
    }
  }

  /** What a call promises of what it was given, whatever the iteration order: each task is run at most
      once, after everything it depends on, and only if its command succeeds; and each way to end has its
      exact cause or leaves a witness of it. */
  method ExecuteTasks(tasks: seq<Task>, fails: set<string>) returns (outcome: Outcome, log: seq<string>)
    ensures Result(TaskMap(tasks), fails, outcome, log)
    ensures forall p, q | 0 <= p < q < |log| :: log[p] != log[q]
    ensures forall p | 0 <= p < |log| :: RunInOrder(tasks, log, p) && log[p] !in fails
    ensures !outcome.GuardFailed?
    ensures outcome.Done? ==> forall n | IsGiven(tasks, n) :: n in log
    ensures outcome.Done? <==> CanComplete(tasks, fails)
    ensures outcome.CommandFailed? ==>
              && IsGiven(tasks, outcome.task) && outcome.task in fails && outcome.task !in log
              && forall d | DependsOn(tasks, outcome.task, d) :: d in log
    ensures outcome.NoProgress? ==>
              || (exists n, d :: n !in log && DependsOn(tasks, n, d) && !IsGiven(tasks, d))
              || (exists c :: TaskCycle(tasks, c) && forall n | n in c :: n !in log)
  {
    var taskMap, remaining := BuildTaskMap(tasks);
    log := [];
    while remaining != {}
      invariant Sound(taskMap, fails, log) && remaining == taskMap.Keys - Names(log)
      decreases remaining
    {
      var progressMade;
      progressMade, outcome, remaining, log := Round(taskMap, remaining, fails, log);
      if !outcome.Done? {
        ResultOfTasks(tasks, fails, outcome, log);
        return;
      }
      if !progressMade {
        ResultOfTasks(tasks, fails, NoProgress, log);
        return NoProgress, log;
      }
    }
    forall n | n in taskMap ensures n in Names(log) {
      assert n !in remaining;
    }
    outcome := Done;
    ResultOfTasks(tasks, fails, outcome, log);
  }

  // ----- what the outcome means

  /** A dependency cycle never gets started. */
  lemma {:induction false} CycleNeverRuns(m: map<string, Task>, run: seq<string>, c: seq<string>, k: nat)
    requires ValidRun(m, run) && Cycle(m, c) && k <= |run|
    ensures forall i | 0 <= i < |c| :: c[i] !in run[..k]
  {
    if k > 0 {
      CycleNeverRuns(m, run, c, k - 1);
      assert Ready(m, Names(run[..k - 1]), run[k - 1]);
      forall i | 0 <= i < |c| ensures c[i] != run[k - 1] {
        var next := if i + 1 < |c| then c[i + 1] else c[0];
        assert next in m[c[i]].dependsOn && next !in Names(run[..k - 1]);
      }
    }
  }

  lemma CompleteIsAcyclic(m: map<string, Task>, run: seq<string>)
    requires ValidRun(m, run) && Names(run) == m.Keys
    ensures Closed(m) && Acyclic(m)
  {
    forall n | n in m ensures forall d | d in m[n].dependsOn :: d in m {
      assert n in Names(run);
      var i :| 0 <= i < |run| && run[i] == n;
      assert Ready(m, Names(run[..i]), run[i]);
      forall d | d in m[n].dependsOn ensures d in m {
        assert d in Names(run);
      }
    }
    assert run[..|run|] == run;
    forall c ensures !Cycle(m, c) {
      if Cycle(m, c) {
        CycleNeverRuns(m, run, c, |run|);
      }
    }
  }

  /** A set of tasks that each wait for another of them. */
  ghost predicate Waiting(m: map<string, Task>, w: set<string>) {
    w <= m.Keys && forall n {:trigger WaitsIn(m, w, n)} | n in w :: WaitsIn(m, w, n)
  }

  ghost predicate WaitsIn(m: map<string, Task>, w: set<string>, n: string) {
    n in m && exists d :: d in m[n].dependsOn && d in w
  }

  lemma GrowChain(m: map<string, Task>, p: seq<string>, d: string)
    requires Chain(m, p) && p != [] && d in m && d in m[p[|p| - 1]].dependsOn
    ensures Chain(m, p + [d]) && Names(p + [d]) == Names(p) + {d}
  {
  }

  /** Following the waits long enough closes a cycle. */
  lemma {:induction false} FindCycle(m: map<string, Task>, w: set<string>, p: seq<string>) returns (c: seq<string>)
    requires Waiting(m, w) && Chain(m, p) && p != [] && Names(p) <= w
    ensures Cycle(m, c) && Names(c) <= w
    decreases w - Names(p)
  {
    var last := p[|p| - 1];
    assert last in Names(p) && WaitsIn(m, w, last);
    var d :| d in m[last].dependsOn && d in w;
    if d in p {
      var j :| 0 <= j < |p| && p[j] == d;
      c := p[j..];
      forall n | n in c ensures n in w {
        assert n in Names(p);
      }
    } else {
      GrowChain(m, p, d);
      assert d in w - Names(p);
      c := FindCycle(m, w, p + [d]);
    }
  }

  ghost predicate MissingName(m: map<string, Task>, left: set<string>) {
    exists n, d :: n in left && n in m && d in m[n].dependsOn && d !in m
  }

  ghost predicate HasCycle(m: map<string, Task>, left: set<string>) {
    exists c :: Cycle(m, c) && Names(c) <= left
  }

  lemma LeftWaits(m: map<string, Task>, run: seq<string>)
    requires ValidRun(m, run) && Stuck(m, run) && !MissingName(m, m.Keys - Names(run))
    ensures Waiting(m, m.Keys - Names(run))
  {
    var left := m.Keys - Names(run);
    forall n | n in left ensures WaitsIn(m, left, n) {
      assert !Ready(m, Names(run), n);
      var d :| d in m[n].dependsOn && d !in Names(run);
      assert d in left;
    }
  }

  /** When no progress is made, what is left shows why: a name that was not given, or a cycle. */
  lemma StuckShowsWhy(m: map<string, Task>, run: seq<string>)
    requires ValidRun(m, run) && Names(run) < m.Keys && Stuck(m, run)
    ensures MissingName(m, m.Keys - Names(run)) || HasCycle(m, m.Keys - Names(run))
  {
    var left := m.Keys - Names(run);
    if !MissingName(m, left) {
      LeftWaits(m, run);
      var n :| n in left;
      assert Names([n]) == {n};
      var c := FindCycle(m, left, [n]);
    }
  }

  /** Whatever any order could execute, a stuck run has executed. */
  lemma {:induction false} StuckIsMaximal(m: map<string, Task>, run: seq<string>, other: seq<string>)
    requires ValidRun(m, run) && Stuck(m, run) && ValidRun(m, other)
    ensures Names(other) <= Names(run)
    decreases |other|
  {
    if other != [] {
      var k := |other| - 1;
      Prefix(m, other, k);
      StuckIsMaximal(m, run, other[..k]);
      assert Ready(m, Names(other[..k]), other[k]);
      assert Names(other) == Names(other[..k]) + {other[k]};
      assert Ready(m, Names(run), other[k]);
    }
  }

  lemma Prefix(m: map<string, Task>, run: seq<string>, k: nat)
    requires ValidRun(m, run) && k <= |run|
    ensures ValidRun(m, run[..k])
  {
    forall i | 0 <= i < k ensures Ready(m, Names(run[..k][..i]), run[..k][i]) {
      assert run[..k][..i] == run[..i];
    }
  }

  /** Some order of execution reaches a task whose command fails. */
  ghost predicate CanFail(m: map<string, Task>, fails: set<string>) {
    exists run :: ValidRun(m, run) && !(Names(run) !! fails)
  }

  lemma FailureCanHappen(m: map<string, Task>, fails: set<string>, log: seq<string>, n: string)
    requires Sound(m, fails, log) && n in fails && n !in log && Ready(m, Names(log), n)
    ensures CanFail(m, fails)
  {
    Extend(m, {}, log, n);
    assert n in Names(log + [n]) && ValidRun(m, log + [n]);
  }

  lemma NoFailure(m: map<string, Task>, fails: set<string>, log: seq<string>)
    requires Sound(m, fails, log) && Stuck(m, log)
    ensures !CanFail(m, fails)
  {
    forall run | ValidRun(m, run) ensures Names(run) !! fails {
      StuckIsMaximal(m, log, run);
    }
  }

  /** The outcome depends on what is given and which commands fail, never on the iteration order:
      success exactly when every dependency is given, there is no cycle and no command fails. */
  lemma OutcomeDecided(m: map<string, Task>, fails: set<string>, outcome: Outcome, log: seq<string>)
    requires Result(m, fails, outcome, log)
    ensures outcome.Done? <==> Closed(m) && Acyclic(m) && m.Keys !! fails
    ensures outcome.CommandFailed? <==> CanFail(m, fails)
    ensures outcome.NoProgress? <==> !(Closed(m) && Acyclic(m)) && !CanFail(m, fails)
  {
    match outcome
    case Done =>
      CompleteIsAcyclic(m, log);
      NoFailure(m, fails, log);
    case CommandFailed(n) =>
      FailureCanHappen(m, fails, log, n);
    case NoProgress =>
      NoFailure(m, fails, log);
      StuckShowsWhy(m, log);
  }

  // ----- and of the given tasks

  lemma CycleOfTasks(tasks: seq<Task>, c: seq<string>)
    ensures TaskCycle(tasks, c) <==> Cycle(TaskMap(tasks), c)
  {
    var m := TaskMap(tasks);
    if c != [] {
      forall n, d ensures DependsOn(tasks, n, d) <==> n in m && d in m[n].dependsOn {
        TableDependsOn(tasks, n, d);
      }
      if TaskCycle(tasks, c) {
        forall i | 0 <= i < |c| ensures c[i] in m {
          assert i < |c| - 1 ==> DependsOn(tasks, c[i], c[i + 1]);
        }
        assert forall i | 0 <= i < |c| - 1 :: DependsOn(tasks, c[i], c[i + 1]);
      }
      if Cycle(m, c) {
        assert forall i | 0 <= i < |c| - 1 :: c[i] in m && c[i + 1] in m[c[i]].dependsOn;
      }
    }
  }

  lemma RunOfTasks(tasks: seq<Task>, log: seq<string>, p: nat)
    requires ValidRun(TaskMap(tasks), log) && p < |log|
    ensures RunInOrder(tasks, log, p)
  {
    assert Ready(TaskMap(tasks), Names(log[..p]), log[p]);
    TableDependsOn(tasks, log[p], "");
    forall d | DependsOn(tasks, log[p], d) ensures d in log[..p] {
      TableDependsOn(tasks, log[p], d);
      assert d in Names(log[..p]);
    }
  }

  /** Every dependency is given, none goes round, and no command fails. */
  ghost predicate CanComplete(tasks: seq<Task>, fails: set<string>) {
    && (forall n, d | DependsOn(tasks, n, d) :: IsGiven(tasks, d))
    && (forall c :: !TaskCycle(tasks, c))
    && (forall n | IsGiven(tasks, n) :: n !in fails)
  }

  lemma TableCompletes(tasks: seq<Task>, fails: set<string>)
    ensures CanComplete(tasks, fails)
            <==> Closed(TaskMap(tasks)) && Acyclic(TaskMap(tasks)) && TaskMap(tasks).Keys !! fails
  {
    var m := TaskMap(tasks);
    forall n, d ensures DependsOn(tasks, n, d) <==> n in m && d in m[n].dependsOn {
      TableDependsOn(tasks, n, d);
    }
    forall n ensures IsGiven(tasks, n) <==> n in m {
      TableDependsOn(tasks, n, "");
    }
    forall c ensures TaskCycle(tasks, c) <==> Cycle(m, c) {
      CycleOfTasks(tasks, c);
    }
  }

  lemma NoProgressOfTasks(tasks: seq<Task>, log: seq<string>)
    requires ValidRun(TaskMap(tasks), log) && Names(log) < TaskMap(tasks).Keys && Stuck(TaskMap(tasks), log)
    ensures || (exists n, d :: n !in log && DependsOn(tasks, n, d) && !IsGiven(tasks, d))
            || (exists c :: TaskCycle(tasks, c) && forall n | n in c :: n !in log)
  {
    var m, left := TaskMap(tasks), TaskMap(tasks).Keys - Names(log);
    StuckShowsWhy(m, log);
    if MissingName(m, left) {
      var n, d :| n in left && n in m && d in m[n].dependsOn && d !in m;
      TableDependsOn(tasks, n, d);
      TableDependsOn(tasks, d, "");
      assert n !in log && DependsOn(tasks, n, d) && !IsGiven(tasks, d);
    } else {
      var c :| Cycle(m, c) && Names(c) <= left;
      CycleOfTasks(tasks, c);
      forall n | n in c ensures n !in log {
        assert n in Names(c);
      }
    }
  }

  lemma FailureOfTasks(tasks: seq<Task>, log: seq<string>, n: string)
    requires Ready(TaskMap(tasks), Names(log), n)
    ensures IsGiven(tasks, n) && forall d | DependsOn(tasks, n, d) :: d in log
  {
    TableDependsOn(tasks, n, "");
    forall d | DependsOn(tasks, n, d) ensures d in log {
      TableDependsOn(tasks, n, d);
      assert d in Names(log);
    }
  }

  lemma ResultOfTasks(tasks: seq<Task>, fails: set<string>, outcome: Outcome, log: seq<string>)
    requires Result(TaskMap(tasks), fails, outcome, log)
    ensures forall p | 0 <= p < |log| :: RunInOrder(tasks, log, p) && log[p] !in fails
    ensures outcome.Done? ==> forall n | IsGiven(tasks, n) :: n in log
    ensures outcome.Done? <==> CanComplete(tasks, fails)
    ensures outcome.CommandFailed? ==>
              IsGiven(tasks, outcome.task) && forall d | DependsOn(tasks, outcome.task, d) :: d in log
    ensures outcome.NoProgress? ==>
              || (exists n, d :: n !in log && DependsOn(tasks, n, d) && !IsGiven(tasks, d))
              || (exists c :: TaskCycle(tasks, c) && forall n | n in c :: n !in log)
  {
    var m := TaskMap(tasks);
    forall p | 0 <= p < |log| ensures RunInOrder(tasks, log, p) && log[p] !in fails {
      RunOfTasks(tasks, log, p);
      assert log[p] in Names(log);
    }
    OutcomeDecided(m, fails, outcome, log);
    TableCompletes(tasks, fails);
    match outcome
    case Done =>
      forall n | IsGiven(tasks, n) ensures n in log {
        TableDependsOn(tasks, n, "");
        assert n in Names(log);
      }
    case CommandFailed(n) => FailureOfTasks(tasks, log, n);
    case NoProgress => NoProgressOfTasks(tasks, log);
  }
}
