// The scheduling of scan.py: the queue of paths and the main loop that keeps a bounded
// number of scans in flight. Everything runs in one thread; other tasks run only while the
// loop waits.

module ScanSchedulers {

  import opened Wrappers
  import opened Queues

  type Path = string

  datatype Got = Item(path: Path) | QueueEmpty | Later(waiter: nat)

  // FinishableQueue. given and accepted are the items handed out and put in, in order.
  class FinishableQueue {
    var q: seq<Path>
    var finished: bool
    var ready: bool            // _ready_event
    var waiters: seq<nat>      // the futures of get() that wait
    var made: nat              // futures made so far
    var results: map<nat, Got> // what futures have been given
    ghost var accepted: seq<Path>
    ghost var given: seq<Path>

    ghost predicate Valid()
      reads this
    {
      && accepted == given + q && (q != [] ==> ready) && (waiters != [] ==> q == [])
      && (forall i, j :: 0 <= i < j < |waiters| ==> waiters[i] != waiters[j])
      && (forall i :: 0 <= i < |waiters| ==> waiters[i] < made && (!finished ==> waiters[i] !in results))
    }

    constructor ()
      ensures Valid() && q == [] && !finished && accepted == []
    {
      q, finished, ready, waiters, made, results := [], false, false, [], 0, map[];
      accepted, given := [], [];
    }

    // put; false for QueueFull. The item goes to the first waiter, or to the end of the queue.
    method Put(item: Path) returns (ok: bool)
      requires Valid()
      modifies this
      ensures Valid() && ok == !old(finished) && finished == old(finished)
      ensures ok ==> accepted == old(accepted) + [item]
      ensures ok && old(waiters) == [] ==> q == old(q) + [item] && waiters == [] && results == old(results)
      ensures ok && old(waiters) != [] ==>
        waiters == old(waiters)[1..] && results == old(results)[old(waiters)[0] := Item(item)]
      ensures !ok ==> q == old(q) && accepted == old(accepted)
    {
      if finished { return false; }
      accepted := accepted + [item];
      if |waiters| > 0 {
        var waiter := waiters[0];
        waiters := waiters[1..];
        results := results[waiter := Item(item)];
        given := given + [item];
        return true;
      }
      q := q + [item];
      ready := true;
      ok := true;
    }

    // get up to its await. It does not clear the event when it takes the last item.
    method Get() returns (r: Got)
      requires Valid()
      modifies this
      ensures Valid() && accepted == old(accepted) && finished == old(finished) && ready == old(ready)
      ensures old(q) != [] ==> r == Item(old(q)[0]) && q == old(q)[1..] && given == old(given) + [old(q)[0]]
      ensures old(q) == [] ==>
        q == [] && (if finished then r == QueueEmpty else r.Later? && waiters == old(waiters) + [r.waiter])
    {
      if |q| > 0 {
        r := Item(q[0]);
        given, q := given + [q[0]], q[1..];
        return;
      }
      if finished { return QueueEmpty; }
      assert made !in waiters;
      r := Later(made);
      waiters, results := waiters + [made], results - {made};
      made := made + 1;
    }

    // get_nowait
    method GetNowait() returns (r: Got)
      requires Valid()
      modifies this
      ensures Valid() && accepted == old(accepted) && finished == old(finished)
      ensures if old(q) == [] then r == QueueEmpty && q == [] && ready == old(ready)
              else r == Item(old(q)[0]) && q == old(q)[1..] && ready == (q != [])
    {
      if |q| == 0 { return QueueEmpty; }
      r := Item(q[0]);
      given, q := given + [q[0]], q[1..];
      ready := if |q| == 0 then false else ready;
    }

    // finish: every waiter is told that there is nothing more.
    method Finish()
      requires Valid()
      modifies this
      ensures Valid() && finished && q == old(q) && accepted == old(accepted)
      ensures !old(finished) ==>
        ready && forall i :: 0 <= i < |waiters| ==> waiters[i] in results && results[waiters[i]] == QueueEmpty
    {
      if finished { return; }
      finished := true;
      assert |waiters| > 0 ==> |q| == 0;
      for i := 0 to |waiters|
        invariant Valid() && finished && q == old(q) && accepted == old(accepted) && waiters == old(waiters)
          && 0 <= i <= |waiters|
        invariant forall k :: 0 <= k < i ==> waiters[k] in results && results[waiters[k]] == QueueEmpty
      {
        results := results[waiters[i] := QueueEmpty];
      }
      ready := true;
    }
  }

  // ---------- The main loop ----------

  datatype Task = Scan(id: nat, path: Path) | Ready(id: nat)

  // args.max_scans: the default is a number, what the option -m gives stays a string.
  datatype Limit = Int(n: int) | Str(text: string)

  function MaxScans(option: Option<string>, cpus: nat): Limit {
    if option.None? then Int(2 * (cpus + 2)) else Str(option.value)
  }

  // The loop is about to begin, waits in asyncio.wait, has ended, has given asyncio.wait an
  // empty set, or has raised TypeError by comparing a number with a string.
  datatype Pc = Beginning | Waiting | Exited | Crashed | Raised

  // queue and finished are the queue's; started lists the scans that were created, accepted
  // the paths that were put, both in order.
  datatype State = State(
    queue: seq<Path>, finished: bool, tasks: set<Task>, fileReady: Option<Task>, pc: Pc, nextId: nat,
    started: seq<Task>, accepted: seq<Path>)

  datatype Label =
    | Put(p: Path)                 // another task puts a path
    | Finish                       // finish()
    | Body(completed: set<Task>)   // the loop: it begins, or asyncio.wait returns completed

  predicate Enabled(s: State, a: Label) {
    match a
    case Put(_) => !s.finished && (s.pc == Beginning || s.pc == Waiting)
    case Finish => s.pc == Beginning || s.pc == Waiting
    case Body(completed) =>
      (s.pc == Beginning && completed == {}) || (s.pc == Waiting && completed != {} && completed <= s.tasks)
  }

  // for task in completed: ...
  function Collect(s: State, completed: set<Task>): State {
    s.(tasks := s.tasks - completed,
       fileReady := if s.fileReady.Some? && s.fileReady.value in completed then None else s.fileReady)
  }

  // The inner while loop and one round of it.
  function FillOne(s: State): State
    requires s.queue != []
  {
    var t := Scan(s.nextId, s.queue[0]);
    s.(queue := s.queue[1..], tasks := s.tasks + {t}, nextId := s.nextId + 1, started := s.started + [t])
  }

  function Fill(s: State, maxScans: int): State
    decreases |s.queue|
  {
    if |s.tasks| < maxScans && s.queue != [] then Fill(FillOne(s), maxScans) else s
  }

  // A task that waits for the queue, when there is nothing else to start.
  function Watch(s: State): State {
    if s.queue == [] && !s.finished && s.fileReady.None?
    then s.(fileReady := Some(Ready(s.nextId)), tasks := s.tasks + {Ready(s.nextId)}, nextId := s.nextId + 1)
    else s
  }

  // Whether the outer loop ends.
  predicate Over(s: State) { s.queue == [] && s.finished && s.tasks == {} }

  // From the test of the outer loop to asyncio.wait.
  function Turn(s: State, limit: Limit): State {
    if Over(s) then s.(pc := Exited)
    else if limit.Str? then s.(pc := Raised)
    else
      var r := Watch(Fill(s, limit.n));
      r.(pc := if r.tasks == {} then Crashed else Waiting)
  }

  function Next(s: State, a: Label, limit: Limit): State {
    match a
    case Put(p) => s.(queue := s.queue + [p], accepted := s.accepted + [p])
    case Finish => s.(finished := true)
    case Body(completed) => Turn(Collect(s, completed), limit)
  }

  // The paths that scans are about.
  function Paths(scans: seq<Task>): seq<Path> {
    if scans == [] then []
    else
      var t := scans[|scans| - 1];
      Paths(scans[..|scans| - 1]) + (if t.Scan? then [t.path] else [])
  }

  function Scans(tasks: set<Task>): set<Task> { set t | t in tasks && t.Scan? }

  // Every path put was started in order or is queued; the tasks are known by their ids.
  ghost predicate Tracked(s: State) {
    && s.accepted == Paths(s.started) + s.queue
    && (forall t :: t in s.tasks || t in s.started ==> t.id < s.nextId)
    && (forall t :: t in s.started ==> t.Scan?) && Once(s.started)
    && (forall t :: t in s.tasks && t.Scan? ==> t in s.started)
    && (forall t :: t in s.tasks && t.Ready? ==> s.fileReady == Some(t))
    && (s.fileReady.Some? ==> s.fileReady.value in s.tasks && s.fileReady.value.Ready?)
  }

  ghost predicate Inv(s: State, maxScans: int) {
    && Tracked(s) && |Scans(s.tasks)| <= maxScans && |s.tasks| <= maxScans + 1
    && (s.pc == Exited ==> s.finished && s.queue == [] && s.tasks == {})
    && s.pc != Crashed && s.pc != Raised
  }

  // Queued paths do not wait alone.
  ghost predicate Backed(s: State, maxScans: int) {
    s.pc == Waiting ==> (s.queue == [] && s.finished) || s.fileReady.Some? || |s.tasks| >= maxScans
  }

  lemma ScansGrow(tasks: set<Task>, t: Task)
    requires t !in tasks
    ensures |tasks + {t}| == |tasks| + 1
    ensures Scans(tasks + {t}) == if t.Scan? then Scans(tasks) + {t} else Scans(tasks)
    ensures |Scans(tasks)| <= |tasks|
  {
    Fewer(Scans(tasks), tasks);
  }

  lemma Fewer<T>(a: set<T>, b: set<T>)
    requires a <= b
    ensures |a| <= |b|
  {
    assert b == a + (b - a);
  }

  lemma FillOneTracks(s: State)
    requires Tracked(s) && s.queue != []
    ensures Tracked(FillOne(s))
  {
    var n := FillOne(s);
    assert n.started[..|s.started|] == s.started;
    assert Paths(n.started) + n.queue == Paths(s.started) + s.queue;
  }

  lemma FillOneKeeps(s: State, maxScans: int)
    requires Inv(s, maxScans) && |s.tasks| < maxScans && s.queue != [] && s.pc != Exited
    ensures Inv(FillOne(s), maxScans)
  {
    FillOneTracks(s);
    var t, n := Scan(s.nextId, s.queue[0]), FillOne(s);
    ScansGrow(s.tasks, t);
    hide Tracked, Paths;
    assert Scans(n.tasks) <= n.tasks;
    Fewer(Scans(n.tasks), n.tasks);
  }

  // What filling does, one scan at a time.
  lemma {:induction false} FillKeeps(s: State, maxScans: int)
    requires Inv(s, maxScans) && s.pc != Exited
    ensures var f := Fill(s, maxScans);
            && Inv(f, maxScans) && f.accepted == s.accepted && f.finished == s.finished && f.fileReady == s.fileReady
               && f.pc == s.pc
            && s.started <= f.started && s.tasks <= f.tasks
            && (f.queue == [] || |f.tasks| >= maxScans) && (f.queue != s.queue ==> f.tasks != {})
    decreases |s.queue|
  {
    if |s.tasks| < maxScans && s.queue != [] {
      FillOneKeeps(s, maxScans);
      hide Inv, Paths, Scans;
      var n := FillOne(s);
      FillKeeps(n, maxScans);
      assert Scan(s.nextId, s.queue[0]) in n.tasks;
    }
  }

  lemma CollectKeeps(s: State, completed: set<Task>, maxScans: int)
    requires Inv(s, maxScans) && s.pc != Exited
    ensures Inv(Collect(s, completed), maxScans)
  {
    var c := Collect(s, completed);
    assert Scans(c.tasks) <= Scans(s.tasks);
    Fewer(Scans(c.tasks), Scans(s.tasks));
    Fewer(c.tasks, s.tasks);
  }

  // asyncio.wait would be given an empty set exactly if not even one scan were allowed.
  lemma TurnCrashes(s: State, maxScans: int)
    requires Inv(s, if maxScans < 0 then 0 else maxScans) && s.pc != Exited
    ensures Turn(s, Int(maxScans)).pc == Crashed <==> maxScans < 1 && s.queue != [] && s.tasks == {}
  {
    if maxScans >= 1 {
      FillKeeps(s, maxScans);
    } else if !Over(s) {
      assert Fill(s, maxScans) == s;
    }
  }

  lemma WatchKeeps(s: State, maxScans: int)
    requires Inv(s, maxScans) && s.pc != Exited
    ensures Inv(Watch(s), maxScans)
  {
    if s.queue == [] && !s.finished && s.fileReady.None? {
      assert forall t :: t in s.tasks ==> t.Scan?;
      assert Scans(s.tasks) == s.tasks;
      ScansGrow(s.tasks, Ready(s.nextId));
    }
  }

  lemma TurnKeeps(s: State, maxScans: int)
    requires Inv(s, maxScans) && s.pc != Exited && maxScans >= 1
    ensures Inv(Turn(s, Int(maxScans)), maxScans) && Backed(Turn(s, Int(maxScans)), maxScans)
  {
    TurnCrashes(s, maxScans);
    FillKeeps(s, maxScans);
    var f := Fill(s, maxScans);
    WatchKeeps(f, maxScans);
    hide Fill, Paths, Scans, Once;
  }

  lemma StepKeeps(s: State, a: Label, maxScans: int)
    requires Inv(s, maxScans) && Backed(s, maxScans) && Enabled(s, a) && maxScans >= 1
    ensures Inv(Next(s, a, Int(maxScans)), maxScans) && Backed(Next(s, a, Int(maxScans)), maxScans)
  {
    match a
    case Put(p) => assert Paths(s.started) + (s.queue + [p]) == (Paths(s.started) + s.queue) + [p];
    case Finish =>
    case Body(completed) =>
      CollectKeeps(s, completed, maxScans);
      TurnKeeps(Collect(s, completed), maxScans);
  }

  const START: State := State([], false, {}, None, Beginning, 0, [], [])

  ghost predicate IsRun(limit: Limit, labels: seq<Label>, states: seq<State>) {
    && |states| == |labels| + 1 && states[0] == START
    && (forall i :: 0 <= i < |labels| ==>
          Enabled(states[i], labels[i]) && states[i + 1] == Next(states[i], labels[i], limit))
  }

  lemma {:induction false} RunKeeps(maxScans: int, labels: seq<Label>, states: seq<State>, i: nat)
    requires maxScans >= 1 && IsRun(Int(maxScans), labels, states) && i <= |labels|
    ensures Inv(states[i], maxScans) && Backed(states[i], maxScans)
  {
    if i == 0 {
      assert Scans(START.tasks) == {};
    } else {
      RunKeeps(maxScans, labels, states, i - 1);
      StepKeeps(states[i - 1], labels[i - 1], maxScans);
      assert states[i - 1 + 1] == states[i];
    }
  }

  // Over all runs with at least one scan allowed: never more scans in flight than allowed,
  // never an empty set for asyncio.wait, every path put so far is started once, in order, by
  // a scan of its own, or still queued; a queued path waits only beside the task that watches
  // the queue or a full set of tasks; and when the loop has ended, everything was started and
  // nothing runs.
  lemma SchedulingSafe(maxScans: int, labels: seq<Label>, states: seq<State>, i: nat)
    requires maxScans >= 1 && IsRun(Int(maxScans), labels, states) && i <= |labels|
    ensures var s := states[i];
            && |Scans(s.tasks)| <= maxScans && !s.pc.Crashed? && !s.pc.Raised?
            && s.accepted == Paths(s.started) + s.queue && Once(s.started) && (forall t :: t in s.started ==> t.Scan?)
            && (s.pc == Waiting && s.queue != [] ==> s.fileReady.Some? || |s.tasks| >= maxScans)
            && (s.pc == Exited ==> s.finished && s.tasks == {} && Paths(s.started) == s.accepted)
  {
    RunKeeps(maxScans, labels, states, i);
    var s := states[i];
    if s.pc == Exited { assert Paths(s.started) + [] == Paths(s.started); }
  }

  // Filling only adds tasks that are new.
  lemma {:induction false} FillAddsNew(s: State, maxScans: int, t: Task)
    requires t.id < s.nextId
    ensures t in Fill(s, maxScans).tasks <==> t in s.tasks
    ensures s.nextId <= Fill(s, maxScans).nextId
    decreases |s.queue|
  {
    if |s.tasks| < maxScans && s.queue != [] { FillAddsNew(FillOne(s), maxScans, t); }
  }

  lemma StepOnTask(s: State, a: Label, limit: Limit, t: Task)
    requires Enabled(s, a) && t.id < s.nextId
    ensures t in Next(s, a, limit).tasks <==> t in s.tasks && (a.Body? ==> t !in a.completed)
    ensures s.nextId <= Next(s, a, limit).nextId
  {
    if a.Body? && limit.Int? { FillAddsNew(Collect(s, a.completed), limit.n, t); }
  }

  // A task is in the set from the turn that creates it exactly until asyncio.wait returns it.
  lemma {:induction false} TasksAreUnfinished(
    limit: Limit, labels: seq<Label>, states: seq<State>, k: nat, j: nat, t: Task)
    requires IsRun(limit, labels, states) && k <= j <= |labels| && t in states[k].tasks && t.id < states[k].nextId
    ensures t in states[j].tasks <==> forall i :: k <= i < j && labels[i].Body? ==> t !in labels[i].completed
    ensures t.id < states[j].nextId
    decreases j - k
  {
    if k < j {
      TasksAreUnfinished(limit, labels, states, k, j - 1, t);
      StepOnTask(states[j - 1], labels[j - 1], limit, t);
      assert states[j - 1 + 1] == states[j];
    }
  }

  // So a completed task is never waited for again,
  lemma CompletedLeave(maxScans: int, labels: seq<Label>, states: seq<State>, k: nat, j: nat, t: Task)
    requires maxScans >= 1 && IsRun(Int(maxScans), labels, states) && k < j <= |labels|
    requires labels[k].Body? && t in labels[k].completed
    ensures t !in states[j].tasks
  {
    RunKeeps(maxScans, labels, states, k);
    assert Enabled(states[k], labels[k]);
    TasksAreUnfinished(Int(maxScans), labels, states, k, j, t);
  }

  // a queued path waits only beside the watching task or as many unfinished tasks as are allowed,
  lemma WaitsForUnfinished(maxScans: int, labels: seq<Label>, states: seq<State>, j: nat)
    requires maxScans >= 1 && IsRun(Int(maxScans), labels, states) && j <= |labels|
    ensures var s := states[j];
            && (s.pc == Waiting && s.queue != [] ==> s.fileReady.Some? || |s.tasks| >= maxScans)
            && (forall t, k :: t in s.tasks && 0 <= k < j && labels[k].Body? ==> t !in labels[k].completed)
  {
    SchedulingSafe(maxScans, labels, states, j);
    forall t, k | 0 <= k < j && labels[k].Body? && t in labels[k].completed ensures t !in states[j].tasks {
      CompletedLeave(maxScans, labels, states, k, j, t);
    }
  }

  // and when the last of them have completed, on a queue that is finished and empty, the
  // loop ends.
  lemma LastTurnExits(limit: Limit, labels: seq<Label>, states: seq<State>, k: nat)
    requires IsRun(limit, labels, states) && k < |labels| && labels[k].Body?
    requires states[k].finished && states[k].queue == [] && states[k].tasks <= labels[k].completed
    ensures states[k + 1].pc == Exited
  {
    assert states[k + 1] == Next(states[k], labels[k], limit);
  }

  // With the option -m no scan ever starts: the first turn ends the program with TypeError,
  // unless the queue is finished and holds nothing; then the loop is not entered. There is
  // no second turn.
  lemma {:induction false} OptionRaises(text: string, labels: seq<Label>, states: seq<State>, i: nat)
    requires IsRun(Str(text), labels, states) && i <= |labels|
    ensures var s := states[i];
            && s.started == [] && s.queue == s.accepted && s.tasks == {} && s.fileReady.None?
            && (s.pc == Beginning <==> forall k :: 0 <= k < i ==> !labels[k].Body?)
            && (s.pc != Beginning ==>
                  && i > 0 && labels[i - 1].Body? && i == |labels|
                  && (s.pc == Raised <==> !(s.finished && s.queue == []))
                  && (s.pc == Exited <==> s.finished && s.queue == []))
  {
    if i > 0 {
      OptionRaises(text, labels, states, i - 1);
      assert states[i - 1 + 1] == states[i];
      if i < |labels| { assert Enabled(states[i], labels[i]); }
    }
  }

  // For instance when a path has been put.
  lemma OptionWitness(p: Path, text: string, cpus: nat) returns (labels: seq<Label>, states: seq<State>)
    ensures IsRun(MaxScans(Some(text), cpus), labels, states)
    ensures states[|labels|].pc == Raised && states[|labels|].accepted == [p] && states[|labels|].started == []
  {
    var s1 := START.(queue := [p], accepted := [p]);
    labels, states := [Put(p), Body({})], [START, s1, s1.(pc := Raised)];
  }

  // Without the option at least six scans are allowed, so that SchedulingSafe applies.
  lemma DefaultIsSafe(cpus: nat, labels: seq<Label>, states: seq<State>, i: nat)
    requires cpus >= 1 && IsRun(MaxScans(None, cpus), labels, states) && i <= |labels|
    ensures states[i].pc in {Beginning, Waiting, Exited} && |Scans(states[i].tasks)| <= 2 * (cpus + 2)
  {
    SchedulingSafe(2 * (cpus + 2), labels, states, i);
  }

  // ---------- The program ----------

  // The variables of main that the loop uses.
  class MainLoop {
    const files: FinishableQueue
    const maxScans: Limit
    var tasks: set<Task>
    var fileReady: Option<Task>
    var nextId: nat
    ghost var pc: Pc
    ghost var started: seq<Task>

    ghost function View(): State
      reads this, files
    { State(files.q, files.finished, tasks, fileReady, pc, nextId, started, files.accepted) }

    constructor (files: FinishableQueue, option: Option<string>, cpus: nat)
      requires files.Valid() && files.q == [] && !files.finished && files.accepted == []
      ensures this.files == files && maxScans == MaxScans(option, cpus) && View() == START && files.Valid()
    {
      this.files, maxScans := files, MaxScans(option, cpus);
      tasks, fileReady, nextId, pc, started := {}, None, 0, Beginning, [];
    }

    // The inner loop: scans are created while paths and room are left.
    method FillTasks()
      requires files.Valid() && maxScans.Int?
      modifies this, files
      ensures files.Valid() && View() == Fill(old(View()), maxScans.n)
    {
      ghost var goal := Fill(View(), maxScans.n);
      while |tasks| < maxScans.n && |files.q| > 0
        invariant files.Valid() && Fill(View(), maxScans.n) == goal
        decreases |files.q|
      {
        var got := files.GetNowait();
        var task := Scan(nextId, got.path);
        tasks := tasks + {task};
        nextId := nextId + 1;
        started := started + [task];
      }
    }

    // file_ready_task
    method WatchFiles()
      modifies this
      ensures View() == Watch(old(View()))
    {
      if |files.q| == 0 && !files.finished && fileReady.None? {
        var task := Ready(nextId);
        nextId := nextId + 1;
        fileReady := Some(task);
        tasks := tasks + {task};
      }
    }

    // for task in completed: ... and tasks = pending
    method CollectTasks(completed: set<Task>)
      modifies this
      ensures View() == Collect(old(View()), completed) && tasks == old(tasks) - completed
      ensures fileReady == if old(fileReady).Some? && old(fileReady).value in completed then None else old(fileReady)
    {
      tasks := tasks - completed;
      if fileReady.Some? && fileReady.value in completed { fileReady := None; }
    }

    // One iteration of the outer loop up to asyncio.wait, behind the handling of completed.
    method RunTurn(completed: set<Task>) returns (waits: bool)
      requires files.Valid() && Enabled(View(), Body(completed))
      modifies this, files
      ensures files.Valid() && View() == Next(old(View()), Body(completed), maxScans)
      ensures waits <==> pc != Exited && pc != Raised
    {
      hide Fill;
      hide Watch;
      CollectTasks(completed);
      if |files.q| == 0 && files.finished && tasks == {} {
        pc := Exited;
        return false;
      }
      if maxScans.Str? {
        pc := Raised;
        return false;
      }
      FillTasks();
      WatchFiles();
      pc := if tasks == {} then Crashed else Waiting;
      waits := true;
    }
  }
}
